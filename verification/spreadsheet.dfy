/** `excel_writer`: the frame goes to sheet "Base", then every column gets a
    styled header cell and a fixed width. */
module Spreadsheet {

  /** A frame as the pipeline sees it: column names and rows of cell
      texts. Cell values pass through unchanged and are not interpreted. */
  datatype Table = Table(columns: seq<string>, rows: seq<seq<string>>)

  const SheetName := "Base"
  const ColumnWidth := 40

  /** The calls made on the workbook, in order. */
  datatype WriteOp =
    | WriteFrame(sheet: string, data: Table)                       // data.to_excel(...)
    | WriteHeader(sheet: string, row: nat, col: nat, value: string) // worksheet.write(0, i, name, cell_format)
    | SetColumn(sheet: string, first: nat, last: nat, width: nat)   // worksheet.set_column(i, i, 40)

  /** The writes `excel_writer(path, data)` performs on its workbook. */
  method ExcelWriter(data: Table) returns (ops: seq<WriteOp>)
    ensures |ops| == 1 + 2 * |data.columns|
    ensures ops[0] == WriteFrame(SheetName, data)
    ensures forall i :: 0 <= i < |data.columns| ==>
      ops[1 + 2 * i] == WriteHeader(SheetName, 0, i, data.columns[i])
      && ops[2 + 2 * i] == SetColumn(SheetName, i, i, ColumnWidth)
    ensures forall k :: 0 <= k < |ops| && ops[k].WriteHeader? ==> ops[k].row == 0 && ops[k].col < |data.columns|
    ensures forall k :: 0 <= k < |ops| && ops[k].SetColumn? ==>
      ops[k].first == ops[k].last < |data.columns| && ops[k].width == ColumnWidth
  {
    ops := [WriteFrame(SheetName, data)];
    var index := 0;
    while index < |data.columns|
      invariant 0 <= index <= |data.columns|
      invariant |ops| == 1 + 2 * index
      invariant ops[0] == WriteFrame(SheetName, data)
      invariant forall i :: 0 <= i < index ==>
        ops[1 + 2 * i] == WriteHeader(SheetName, 0, i, data.columns[i])
        && ops[2 + 2 * i] == SetColumn(SheetName, i, i, ColumnWidth)
      invariant forall k :: 0 <= k < |ops| && ops[k].WriteHeader? ==> ops[k].row == 0 && ops[k].col < index
      invariant forall k :: 0 <= k < |ops| && ops[k].SetColumn? ==>
        ops[k].first == ops[k].last < index && ops[k].width == ColumnWidth
    {
      ops := ops + [WriteHeader(SheetName, 0, index, data.columns[index])];
      ops := ops + [SetColumn(SheetName, index, index, ColumnWidth)];
      index := index + 1;
    }
  }
}
