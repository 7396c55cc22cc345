/** The Zoom converter (`parse_zoom_json`): the rows of the transcript table
    drive a small state machine with a current speaker, a current timestamp
    and a buffer of text lines; a speaker-image row or a new timestamp
    closes the buffered segment, as does the end of the table. */
module Zoom {
  import opened Tree
  import opened Text
  import opened Triples

  /** The only failure: `.get` called on a row, cell or cell item that is
      not a JSON object. */
  datatype ZoomError = NotAnObject

  /** What the parser reads from the first cell of a row: the values of its
      `AXTextArea` items, in order, and whether an `AXImage` is among them. */
  datatype Cell = Cell(values: seq<string>, hasImage: bool)

  /** The parser's variables: speaker and timestamp are "" while unset
      (only their truth value matters), the text buffer, and the
      triples emitted so far. */
  datatype State = State(speaker: string, timestamp: string, buffer: seq<string>, parts: seq<Triple>)

  const Start := State("", "", [], [])

  /** The placeholder name for a speaker-image row without text. */
  const UnknownSpeaker := "Unknown Speaker"

  predicate AllObjects(ns: seq<Json>) {
    forall k :: 0 <= k < |ns| ==> ns[k].Obj?
  }

  /** `[item.get('value', '') for item in cell_contents if item.get('role') == 'AXTextArea']`. */
  function TextAreaValues(items: seq<Json>): (vs: seq<string>)
    requires AllObjects(items)
    ensures |vs| <= |items|
  {
    if items == [] then []
    else (if HasRole(items[0], "AXTextArea") then [ValueOr(items[0])] else []) + TextAreaValues(items[1..])
  }

  /** `any(item.get('role') == 'AXImage' for item in cell_contents)`. */
  predicate HasImage(items: seq<Json>) {
    exists k :: 0 <= k < |items| && HasRole(items[k], "AXImage")
  }

  /** `[val.strip() for val in cell_values]`. */
  function StripAll(vs: seq<string>): (r: seq<string>)
    ensures |r| == |vs|
  {
    seq(|vs|, k requires 0 <= k < |vs| => Strip(vs[k]))
  }

  /** Reading one row: `Err` when the code would call `.get` on a
      non-object, `None` for a row without cells or a first cell without
      content (both skipped), the cell otherwise. */
  function ReadRow(row: Json): Result<Option<Cell>, ZoomError> {
    if !row.Obj? then Err(NotAnObject)
    else if row.children == [] then Ok(None)
    else if !row.children[0].Obj? then Err(NotAnObject)
    else
      var items := row.children[0].children;
      if items == [] then Ok(None)
      else if !AllObjects(items) then Err(NotAnObject)
      else Ok(Some(Cell(TextAreaValues(items), HasImage(items))))
  }

  /** A row whose first value looks like "HH:MM:SS": at least two values,
      the first with exactly two colons. */
  predicate IsStampCell(c: Cell) {
    |c.values| >= 2 && Count(c.values[0], ':') == 2
  }

  /** The flush: the buffer joined by spaces and stripped becomes a triple
      unless it is blank. */
  function Emit(s: State): seq<Triple> {
    var dialogue := Strip(Join(" ", s.buffer));
    if dialogue != "" then s.parts + [Triple(s.speaker, s.timestamp, dialogue)] else s.parts
  }

  /** The triple a flush of `s` would emit. */
  function Pending(s: State): Triple {
    Triple(s.speaker, s.timestamp, Strip(Join(" ", s.buffer)))
  }

  /** One row of the loop of lines 27-67. */
  function RowStep(s: State, c: Cell): State {
    if c.hasImage then
      var s1 := if s.speaker != "" && s.buffer != [] && s.timestamp != ""
        then s.(parts := Emit(s), buffer := [], timestamp := "") else s;
      s1.(speaker := if c.values != [] then Strip(c.values[0]) else UnknownSpeaker)
    else if c.values != [] && s.speaker != "" then
      if IsStampCell(c) then
        var s1 := if s.buffer != [] && s.timestamp != "" then s.(parts := Emit(s), buffer := []) else s;
        s1.(timestamp := Strip(c.values[0]), buffer := s1.buffer + [Strip(c.values[1])])
      else
        s.(buffer := s.buffer + StripAll(c.values))
    else s
  }

  /** The flush after the loop (lines 70-73). */
  function Finish(s: State): seq<Triple> {
    if s.speaker != "" && s.timestamp != "" && s.buffer != [] then Emit(s) else s.parts
  }

  /** The state after the rows `rows`, or the crash. */
  function Rows(rows: seq<Json>): Result<State, ZoomError> {
    if rows == [] then Ok(Start)
    else
      match Rows(rows[..|rows| - 1])
      case Err(e) => Err(e)
      case Ok(s) =>
        match ReadRow(rows[|rows| - 1])
        case Err(e) => Err(e)
        case Ok(None) => Ok(s)
        case Ok(Some(c)) => Ok(RowStep(s, c))
  }

  /** What `parse_zoom_json(data)` returns, or the crash. */
  function ParseZoom(data: Json): Result<seq<Triple>, ZoomError> {
    if !data.Obj? then Err(NotAnObject)
    else
      match Rows(data.children)
      case Err(e) => Err(e)
      case Ok(s) => Ok(Finish(s))
  }

  lemma RowsSnoc(rows: seq<Json>, row: Json)
    ensures Rows(rows + [row]) == match Rows(rows)
      case Err(e) => Err(e)
      case Ok(s) => (match ReadRow(row)
        case Err(e) => Err(e)
        case Ok(None) => Ok(s)
        case Ok(Some(c)) => Ok(RowStep(s, c)))
  {
    assert (rows + [row])[..|rows|] == rows;
  }

  /** A crash is not recovered from: later rows are never read. */
  lemma {:induction false} RowsErrSticks(xs: seq<Json>, ys: seq<Json>)
    requires Rows(xs).Err?
    ensures Rows(xs + ys).Err?
    decreases |ys|
  {
    if ys == [] {
      assert xs + ys == xs;
    } else {
      var init := ys[..|ys| - 1];
      RowsErrSticks(xs, init);
      assert xs + ys == (xs + init) + [ys[|ys| - 1]];
      RowsSnoc(xs + init, ys[|ys| - 1]);
    }
  }

  // ------------------------------------------------------------ the parser

  /** The repeated flush of lines 43-45, 57-59 and 71-73. */
  method Flush(parts: seq<Triple>, speaker: string, timestamp: string, buffer: seq<string>)
    returns (parts': seq<Triple>)
    ensures parts' == Emit(State(speaker, timestamp, buffer, parts))
  {
    parts' := parts;
    var dialogue := Strip(Join(" ", buffer));
    if dialogue != "" {
      parts' := parts + [Triple(speaker, timestamp, dialogue)];
    }
  }

  /** `parse_zoom_json(data)`. */
  method ParseZoomJson(data: Json) returns (r: Result<seq<Triple>, ZoomError>)
    ensures r == ParseZoom(data)
  {
    if !data.Obj? {
      return Err(NotAnObject);
    }
    var rows := data.children;
    var parts: seq<Triple> := [];
    var speaker := "";
    var timestamp := "";
    var buffer: seq<string> := [];
    for i := 0 to |rows|
      invariant Rows(rows[..i]) == Ok(State(speaker, timestamp, buffer, parts))
    {
      var row := rows[i];
      assert rows[..i + 1] == rows[..i] + [row];
      RowsSnoc(rows[..i], row);
      if !row.Obj? {
        assert ReadRow(row).Err?;
        RowsErrSticks(rows[..i + 1], rows[i + 1..]);
        assert rows[..i + 1] + rows[i + 1..] == rows;
        assert Rows(rows).error.NotAnObject?;
        return Err(NotAnObject);
      }
      var cells := row.children;
      if cells == [] {
        continue;
      }
      if !cells[0].Obj? {
        assert ReadRow(row).Err?;
        RowsErrSticks(rows[..i + 1], rows[i + 1..]);
        assert rows[..i + 1] + rows[i + 1..] == rows;
        assert Rows(rows).error.NotAnObject?;
        return Err(NotAnObject);
      }
      var contents := cells[0].children;
      if contents == [] {
        continue;
      }
      if !AllObjects(contents) {
        assert ReadRow(row).Err?;
        RowsErrSticks(rows[..i + 1], rows[i + 1..]);
        assert rows[..i + 1] + rows[i + 1..] == rows;
        assert Rows(rows).error.NotAnObject?;
        return Err(NotAnObject);
      }
      var values := TextAreaValues(contents);
      var hasImage := HasImage(contents);
      ghost var c := Cell(values, hasImage);
      ghost var s := State(speaker, timestamp, buffer, parts);
      if hasImage {
        if speaker != "" && buffer != [] && timestamp != "" {
          parts := Flush(parts, speaker, timestamp, buffer);
          buffer := [];
          timestamp := "";
        }
        speaker := if values != [] then Strip(values[0]) else UnknownSpeaker;
      } else if values != [] && speaker != "" {
        if |values| >= 2 && Count(values[0], ':') == 2 {
          if buffer != [] && timestamp != "" {
            parts := Flush(parts, speaker, timestamp, buffer);
            buffer := [];
          }
          timestamp := Strip(values[0]);
          buffer := buffer + [Strip(values[1])];
        } else {
          buffer := buffer + StripAll(values);
        }
      }
      assert State(speaker, timestamp, buffer, parts) == RowStep(s, c);
    }
    assert rows[..|rows|] == rows;
    if speaker != "" && timestamp != "" && buffer != [] {
      parts := Flush(parts, speaker, timestamp, buffer);
    }
    return Ok(parts);
  }

  // ------------------------------------------------------------ one row

  /** A row adds at most one triple, the one the previous buffer held, and
      keeps every earlier triple. */
  lemma RowStepAppends(s: State, c: Cell)
    ensures RowStep(s, c).parts == s.parts || RowStep(s, c).parts == s.parts + [Pending(s)]
  {
  }

  /** Rows before the first speaker-image row change nothing. */
  lemma NoSpeakerNoChange(s: State, c: Cell)
    requires s.speaker == "" && !c.hasImage
    ensures RowStep(s, c) == s
  {
  }

  /** A speaker-image row names the new speaker; it closes the buffered
      segment only when speaker, buffer and timestamp are all set, and
      otherwise the buffer and timestamp carry over to the new speaker. */
  lemma ImageRow(s: State, c: Cell)
    requires c.hasImage
    ensures RowStep(s, c).speaker == if c.values != [] then Strip(c.values[0]) else UnknownSpeaker
    ensures s.speaker != "" && s.buffer != [] && s.timestamp != "" ==>
      RowStep(s, c).buffer == [] && RowStep(s, c).timestamp == "" && RowStep(s, c).parts == Emit(s)
    ensures !(s.speaker != "" && s.buffer != [] && s.timestamp != "") ==>
      RowStep(s, c).buffer == s.buffer && RowStep(s, c).timestamp == s.timestamp && RowStep(s, c).parts == s.parts
  {
  }

  /** A timestamp row under a speaker: a buffer that already has a
      timestamp is emitted as a triple first; then the timestamp becomes the
      stripped first value and the stripped second value starts or extends
      the buffer; values after the second are ignored. */
  lemma StampRow(s: State, c: Cell)
    requires !c.hasImage && s.speaker != "" && IsStampCell(c)
    ensures RowStep(s, c).timestamp == Strip(c.values[0])
    ensures RowStep(s, c).speaker == s.speaker
    ensures RowStep(s, c).buffer ==
      (if s.buffer != [] && s.timestamp != "" then [] else s.buffer) + [Strip(c.values[1])]
    ensures RowStep(s, c).parts == if s.buffer != [] && s.timestamp != "" then Emit(s) else s.parts
  {
  }

  /** Any other row with values under a speaker extends the buffer with all
      of its values, stripped. */
  lemma ContinuationRow(s: State, c: Cell)
    requires !c.hasImage && s.speaker != "" && c.values != [] && !IsStampCell(c)
    ensures RowStep(s, c) == s.(buffer := s.buffer + StripAll(c.values))
  {
  }

  /** Every emission ends the timestamp it was emitted under: either the
      timestamp is cleared by a speaker-image row, or a new one replaces
      it. */
  lemma EmissionEndsStamp(s: State, c: Cell)
    requires RowStep(s, c).parts != s.parts
    ensures RowStep(s, c).parts == s.parts + [Pending(s)]
    ensures c.hasImage ==> RowStep(s, c).timestamp == ""
    ensures !c.hasImage ==> IsStampCell(c) && RowStep(s, c).timestamp == Strip(c.values[0])
  {
  }

  // ------------------------------------------------------------ all rows

  /** The shape every emitted triple has: a named, stripped speaker, a
      stripped "HH:MM:SS"-like timestamp and a non-empty stripped dialogue. */
  ghost predicate WellFormedTriple(t: Triple) {
    t.speaker != "" && Trimmed(t.speaker)
    && Count(t.timestamp, ':') == 2 && Trimmed(t.timestamp)
    && t.dialogue != "" && Trimmed(t.dialogue)
  }

  ghost predicate Inv(s: State) {
    Trimmed(s.speaker)
    && (s.timestamp != "" ==> Count(s.timestamp, ':') == 2 && Trimmed(s.timestamp))
    && forall t :: t in s.parts ==> WellFormedTriple(t)
  }

  lemma EmitKeepsInv(s: State)
    requires Inv(s) && s.speaker != "" && s.timestamp != ""
    ensures forall t :: t in Emit(s) ==> WellFormedTriple(t)
  {
    var d := Strip(Join(" ", s.buffer));
    if d != "" {
      var n := Triple(s.speaker, s.timestamp, d);
      assert WellFormedTriple(n);
      forall t | t in s.parts + [n] ensures WellFormedTriple(t) {
        if t != n {
          assert t in s.parts;
        }
      }
    }
  }

  lemma RowStepKeepsInv(s: State, c: Cell)
    requires Inv(s)
    ensures Inv(RowStep(s, c))
  {
    if c.hasImage {
      if s.speaker != "" && s.buffer != [] && s.timestamp != "" {
        EmitKeepsInv(s);
      }
    } else if c.values != [] && s.speaker != "" && IsStampCell(c) {
      if s.buffer != [] && s.timestamp != "" {
        EmitKeepsInv(s);
      }
      StripKeepsCount(c.values[0], ':');
    }
  }

  lemma {:induction false} RowsKeepInv(rows: seq<Json>)
    requires Rows(rows).Ok?
    ensures Inv(Rows(rows).value)
    decreases |rows|
  {
    if rows != [] {
      var init := rows[..|rows| - 1];
      RowsKeepInv(init);
      match ReadRow(rows[|rows| - 1]) {
        case Ok(None) =>
        case Ok(Some(c)) => RowStepKeepsInv(Rows(init).value, c);
      }
    }
  }

  /** Every triple the parser returns is well formed. */
  lemma ParseZoomWellFormed(data: Json)
    requires ParseZoom(data).Ok?
    ensures forall t :: t in ParseZoom(data).value ==> WellFormedTriple(t)
  {
    var s := Rows(data.children).value;
    RowsKeepInv(data.children);
    if s.speaker != "" && s.timestamp != "" && s.buffer != [] {
      EmitKeepsInv(s);
    }
  }

  /** Triples come out in row order: the triples emitted after some rows
      are a prefix of those emitted after more rows. */
  lemma {:induction false} RowsPrefix(xs: seq<Json>, ys: seq<Json>)
    requires Rows(xs + ys).Ok?
    ensures Rows(xs).Ok? && Rows(xs).value.parts <= Rows(xs + ys).value.parts
    decreases |ys|
  {
    if ys == [] {
      assert xs + ys == xs;
    } else {
      var init := ys[..|ys| - 1];
      assert xs + ys == (xs + init) + [ys[|ys| - 1]];
      RowsSnoc(xs + init, ys[|ys| - 1]);
      RowsPrefix(xs, init);
      match ReadRow(ys[|ys| - 1]) {
        case Ok(None) =>
        case Ok(Some(c)) => RowStepAppends(Rows(xs + init).value, c);
      }
    }
  }

  /** The rows of `rows` shaped like timestamp rows. */
  function StampRows(rows: seq<Json>): nat {
    if rows == [] then 0
    else
      var last := rows[|rows| - 1];
      StampRows(rows[..|rows| - 1])
      + (if ReadRow(last).Ok? && ReadRow(last).value.Some? && !ReadRow(last).value.value.hasImage
            && IsStampCell(ReadRow(last).value.value) then 1 else 0)
  }

  /** Triples emitted, plus one for a timestamp still waiting to be emitted. */
  function Used(s: State): nat {
    |s.parts| + if s.timestamp != "" then 1 else 0
  }

  lemma RowStepUses(s: State, c: Cell)
    ensures Used(RowStep(s, c)) <= Used(s) + if !c.hasImage && IsStampCell(c) then 1 else 0
  {
    var r := RowStep(s, c);
    RowStepAppends(s, c);
    if c.hasImage {
      ImageRow(s, c);
    } else if c.values != [] && s.speaker != "" && IsStampCell(c) {
      assert |r.parts| <= |s.parts| + 1;
    } else {
      assert r.parts == s.parts && r.timestamp == s.timestamp;
    }
  }

  lemma {:induction false} RowsUse(rows: seq<Json>)
    requires Rows(rows).Ok?
    ensures Used(Rows(rows).value) <= StampRows(rows)
    decreases |rows|
  {
    if rows != [] {
      var init := rows[..|rows| - 1];
      RowsUse(init);
      match ReadRow(rows[|rows| - 1]) {
        case Ok(None) =>
        case Ok(Some(c)) => RowStepUses(Rows(init).value, c);
      }
    }
  }

  /** Each timestamp is emitted at most once: there are never more triples
      than timestamp rows. */
  lemma ParseZoomBound(data: Json)
    requires ParseZoom(data).Ok?
    ensures |ParseZoom(data).value| <= StampRows(data.children)
  {
    RowsUse(data.children);
  }

  /** An empty table gives no triples. */
  lemma ParseZoomEmpty(role: Option<string>, value: Option<string>)
    ensures ParseZoom(Obj(role, value, [])) == Ok([])
  {
  }
}
