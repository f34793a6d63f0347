/**
  * The executed notebook and the extraction of its tagged result cells
  * (`extract_results` in main.py).
  *
  * A notebook is the list of its cells, already parsed from the output
  * document. For every cell carrying the tag "results", the service reads
  * the first line of the text of the cell's first output. Looking up a
  * missing output, a missing `text` key or an empty text list raises in the
  * source; here each of these becomes an `ExtractError`.
  */
module Notebook {
  import opened Results

  /** The tag that marks a cell whose output is the service's answer. */
  const ResultsTag: string := "results"

  /** One output of a cell; `text` is absent for outputs that are not streams. */
  datatype Output = Output(text: Option<seq<string>>)

  /**
    * A cell: `tags` is `None` when its metadata has no "tags" key. A markdown
    * or raw cell, which has no outputs, has `outputs == []`.
    */
  datatype Cell = Cell(tags: Option<seq<string>>, outputs: seq<Output>)

  /** Why the first line of a tagged cell could not be read. */
  datatype ExtractError =
    | NoOutputs   // `outputs[0]` on an empty list, or a cell kind with no outputs at all
    | NoText      // the first output has no "text" key
    | EmptyText   // `text[0]` on an empty list

  /** The selection test: a "tags" key whose list holds the results tag. */
  predicate IsTagged(c: Cell) {
    c.tags.Some? && ResultsTag in c.tags.value
  }

  /** What reading `outputs[0].text[0]` of one cell yields. */
  function FirstLine(c: Cell): Result<string, ExtractError> {
    if |c.outputs| == 0 then Err(NoOutputs)
    else match c.outputs[0].text
      case None => Err(NoText)
      case Some(lines) => if |lines| == 0 then Err(EmptyText) else Ok(lines[0])
  }

  /** The tagged cells of a notebook, in notebook order (a filter). */
  function TaggedCells(cells: seq<Cell>): (r: seq<Cell>)
    ensures |r| <= |cells|
    ensures forall k :: 0 <= k < |r| ==> IsTagged(r[k])
  {
    if cells == [] then []
    else if IsTagged(cells[0]) then [cells[0]] + TaggedCells(cells[1..])
    else TaggedCells(cells[1..])
  }

  /** One loop step: a tagged cell adds its first line, or raises, unless an earlier cell raised. */
  function Step(acc: Result<seq<string>, ExtractError>, c: Cell): Result<seq<string>, ExtractError> {
    match acc
    case Err(e) => Err(e)
    case Ok(lines) =>
      if !IsTagged(c) then Ok(lines)
      else match FirstLine(c)
        case Err(e) => Err(e)
        case Ok(line) => Ok(lines + [line])
  }

  /**
    * What the extraction loop computes on a notebook: the list of first
    * lines of the tagged cells, or the error of the first tagged cell that
    * has none. Defined on the last cell so that it follows the loop.
    */
  function Extracted(cells: seq<Cell>): Result<seq<string>, ExtractError> {
    if cells == [] then Ok([])
    else Step(Extracted(cells[..|cells| - 1]), cells[|cells| - 1])
  }

  /** `extract_results`: a loop over the cells that appends one line per tagged cell. */
  method ExtractResults(cells: seq<Cell>) returns (r: Result<seq<string>, ExtractError>)
    ensures r == Extracted(cells)
  {
    var results: seq<string> := [];
    var i := 0;
    while i < |cells|
      invariant 0 <= i <= |cells|
      invariant Extracted(cells[..i]) == Ok(results)
    {
      var cell := cells[i];
      assert cells[..i + 1][..i] == cells[..i];
      if IsTagged(cell) {
        if |cell.outputs| == 0 {
          ExtractedErrPersists(cells, i + 1);
          return Err(NoOutputs);
        }
        match cell.outputs[0].text {
          case None =>
            ExtractedErrPersists(cells, i + 1);
            return Err(NoText);
          case Some(lines) =>
            if |lines| == 0 {
              ExtractedErrPersists(cells, i + 1);
              return Err(EmptyText);
            }
            results := results + [lines[0]];
        }
      }
      i := i + 1;
    }
    assert cells[..i] == cells;
    r := Ok(results);
  }

  /** Once a prefix of the notebook raises, the whole notebook raises the same error. */
  lemma {:induction false} ExtractedErrPersists(cells: seq<Cell>, n: nat)
    requires n <= |cells| && Extracted(cells[..n]).Err?
    ensures Extracted(cells) == Extracted(cells[..n])
  {
    if n < |cells| {
      var init := cells[..|cells| - 1];
      assert init[..n] == cells[..n];
      ExtractedErrPersists(init, n);
    } else {
      assert cells[..n] == cells;
    }
  }

  /** Appending a cell to the notebook appends to the filter exactly when the cell is tagged. */
  lemma {:induction false} TaggedCellsAppend(cells: seq<Cell>, c: Cell)
    ensures TaggedCells(cells + [c]) == TaggedCells(cells) + (if IsTagged(c) then [c] else [])
  {
    if cells != [] {
      assert (cells + [c])[1..] == cells[1..] + [c];
      TaggedCellsAppend(cells[1..], c);
    } else {
      assert TaggedCells([c]) == (if IsTagged(c) then [c] else []) + TaggedCells([]);
    }
  }

  /** The filter keeps exactly the notebook's tagged cells. */
  lemma {:induction false} TaggedCellsMembers(cells: seq<Cell>, c: Cell)
    ensures c in TaggedCells(cells) <==> c in cells && IsTagged(c)
  {
    if cells != [] {
      TaggedCellsMembers(cells[1..], c);
      assert cells == [cells[0]] + cells[1..];
    }
  }

  /**
    * Extraction succeeds exactly when every tagged cell has a first line:
    * untagged cells are never indexed, however malformed.
    */
  lemma {:induction false} ExtractedOkIff(cells: seq<Cell>)
    ensures Extracted(cells).Ok? <==>
      (forall i :: 0 <= i < |cells| && IsTagged(cells[i]) ==> FirstLine(cells[i]).Ok?)
  {
    if cells != [] {
      var init := cells[..|cells| - 1];
      ExtractedOkIff(init);
      assert forall i :: 0 <= i < |init| ==> init[i] == cells[i];
    }
  }

  /**
    * On success the result is, in cell order, the first line of each tagged
    * cell and nothing else; so it has one entry per tagged cell and is
    * never longer than the notebook.
    */
  lemma {:induction false} ExtractedIsFirstLinesOfTagged(cells: seq<Cell>)
    requires Extracted(cells).Ok?
    ensures |Extracted(cells).value| == |TaggedCells(cells)| <= |cells|
    ensures forall k :: 0 <= k < |TaggedCells(cells)| ==>
      FirstLine(TaggedCells(cells)[k]) == Ok(Extracted(cells).value[k])
  {
    if cells != [] {
      var init, last := cells[..|cells| - 1], cells[|cells| - 1];
      assert cells == init + [last];
      assert Extracted(cells) == Step(Extracted(init), last);
      ExtractedIsFirstLinesOfTagged(init);
      TaggedCellsAppend(init, last);
      var lines, tagged := Extracted(init).value, TaggedCells(init);
      if IsTagged(last) {
        assert Extracted(cells).value == lines + [FirstLine(last).value];
        assert TaggedCells(cells) == tagged + [last];
      } else {
        assert Extracted(cells).value == lines;
        assert TaggedCells(cells) == tagged;
      }
    }
  }

  /** Removing the untagged cells changes nothing, including which error is raised. */
  lemma {:induction false} ExtractedIgnoresUntagged(cells: seq<Cell>)
    ensures Extracted(cells) == Extracted(TaggedCells(cells))
  {
    if cells != [] {
      var init, last := cells[..|cells| - 1], cells[|cells| - 1];
      assert cells == init + [last];
      assert Extracted(cells) == Step(Extracted(init), last);
      ExtractedIgnoresUntagged(init);
      TaggedCellsAppend(init, last);
      var tagged := TaggedCells(init);
      if IsTagged(last) {
        var t := tagged + [last];
        assert TaggedCells(cells) == t;
        assert t[..|t| - 1] == tagged;
        assert Extracted(t) == Step(Extracted(tagged), last);
      } else {
        assert TaggedCells(cells) == tagged;
        assert Extracted(cells) == Extracted(init);
      }
    }
  }

  /**
    * A failed extraction reports the error of the first tagged cell, in
    * notebook order, that has no first line.
    */
  lemma {:induction false} ExtractedErrIsFirstMalformed(cells: seq<Cell>)
    requires Extracted(cells).Err?
    ensures exists j ::
      && 0 <= j < |cells| && IsTagged(cells[j])
      && FirstLine(cells[j]) == Err(Extracted(cells).error)
      && (forall i :: 0 <= i < j && IsTagged(cells[i]) ==> FirstLine(cells[i]).Ok?)
  {
    var init, last := cells[..|cells| - 1], cells[|cells| - 1];
    assert forall i :: 0 <= i < |init| ==> init[i] == cells[i];
    if Extracted(init).Err? {
      ExtractedErrIsFirstMalformed(init);
      var j :|
        && 0 <= j < |init| && IsTagged(init[j])
        && FirstLine(init[j]) == Err(Extracted(init).error)
        && (forall i :: 0 <= i < j && IsTagged(init[i]) ==> FirstLine(init[i]).Ok?);
      assert IsTagged(cells[j]);
    } else {
      ExtractedOkIff(init);
      assert IsTagged(cells[|cells| - 1]);
    }
  }
}
