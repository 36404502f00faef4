/**
 * `CSVInfo`: the descriptor of one CSV file that the DDL builders consume.
 * Reading the file (`pd.read_csv`) and its size (`os.path.getsize`) are
 * inputs: a `Frame` and a byte count.
 */
module CsvInfo {
  import opened Outcomes
  import opened Text

  /** A header column and the dtype pandas inferred for it. */
  datatype ColumnType = ColumnType(name: string, dtype: string)

  /** What `pd.read_csv` yields: the header, in file order, and the data records after it. */
  datatype Frame = Frame(header: seq<ColumnType>, records: seq<seq<string>>)

  /** `list(data.columns)`: the header names in order. */
  function Names(header: seq<ColumnType>): (r: seq<string>)
    ensures |r| == |header| && forall k :: 0 <= k < |header| ==> r[k] == header[k].name
  {
    seq(|header|, k requires 0 <= k < |header| => header[k].name)
  }

  class CSVInfo {
    var filename: string
    var data: Option<Frame>
    var fullPath: string
    var listOfColumns: Option<seq<string>>
    var columns: Option<nat>
    var types: Option<seq<ColumnType>>
    var rows: Option<nat>
    var size: Option<nat>

    /** Every field `get_info` sets is set, consistently with the frame it read. */
    ghost predicate Valid()
      reads this
    {
      && data.Some? && listOfColumns.Some? && columns.Some? && types.Some? && rows.Some? && size.Some?
      && listOfColumns.value == Names(data.value.header)
      && columns.value == |listOfColumns.value|
      && types.value == data.value.header
      && rows.value == |data.value.records|
    }

    /**
     * `CSVInfo(filename)`: the name is the text after the last '/', the full
     * path is the argument itself, the other fields start as None, and then
     * `get_info` fills them in.
     */
    constructor (path: string, frame: Frame, fileSize: nat)
      ensures filename == Basename(path) && '/' !in filename
      ensures fullPath == path
      ensures Valid() && data == Some(frame) && size == Some(fileSize)
    {
      filename := Basename(path);
      data := None;
      fullPath := path;
      listOfColumns := None;
      columns := None;
      types := None;
      rows := None;
      size := None;
      new;
      GetInfo(frame, fileSize);
    }

    /** `get_info`: reads the file and records its header, column count, dtypes, row count and size. */
    method GetInfo(frame: Frame, fileSize: nat)
      modifies this
      ensures Valid()
      ensures data == Some(frame) && size == Some(fileSize)
      ensures listOfColumns == Some(Names(frame.header)) && columns == Some(|frame.header|)
      ensures types == Some(frame.header) && rows == Some(|frame.records|)
      ensures filename == old(filename) && fullPath == old(fullPath)
    {
      data := Some(frame);
      listOfColumns := Some(Names(frame.header));
      columns := Some(|frame.header|);
      types := Some(frame.header);
      rows := Some(|frame.records|);
      size := Some(fileSize);
    }
  }
}
