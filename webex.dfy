/** The Webex converter (`_find_webex_table`, `parse_webex_json`): the first
    `AXTable` of the snapshot holds one row per message; the first cell of
    a row names the speaker, the time and, inside a scroll area, the
    dialogue, and only complete rows become triples. */
module Webex {
  import opened Tree
  import opened Text
  import opened Triples

  /** The only failure: `.get` called on a row, cell or cell child that is
      not a JSON object. */
  datatype WebexError = NotAnObject

  // ------------------------------------------------------------ the table

  /** `_find_webex_table(node)`: an `AXTable` object is returned as is, any
      other object is searched child by child and an array item by item;
      the first hit wins. */
  function FindTable(n: Json): (r: Option<Json>)
    ensures r.Some? ==> HasRole(r.value, "AXTable")
    decreases n, 1
  {
    match n
    case Obj(_, _, cs) => if HasRole(n, "AXTable") then Some(n) else FindTableAll(cs)
    case Arr(items) => FindTableAll(items)
    case Atom => None
  }

  function FindTableAll(ns: seq<Json>): (r: Option<Json>)
    ensures r.Some? ==> HasRole(r.value, "AXTable")
    decreases ns, 0
  {
    if ns == [] then None
    else
      match FindTable(ns[0])
      case Some(t) => Some(t)
      case None => FindTableAll(ns[1..])
  }

  /** The first object of `s` with role `AXTable`. */
  function FirstTable(s: seq<Json>): (r: Option<Json>)
    ensures r.None? <==> forall k :: 0 <= k < |s| ==> !HasRole(s[k], "AXTable")
    ensures r.Some? ==> exists k :: (0 <= k < |s| && s[k] == r.value && HasRole(s[k], "AXTable")
      && forall m :: 0 <= m < k ==> !HasRole(s[m], "AXTable"))
  {
    if s == [] then None
    else if HasRole(s[0], "AXTable") then Some(s[0])
    else
      var r := FirstTable(s[1..]);
      assert forall k :: 1 <= k < |s| ==> s[k] == s[1..][k - 1];
      r
  }

  lemma {:induction false} FirstTableAppend(xs: seq<Json>, ys: seq<Json>)
    ensures FirstTable(xs + ys) == if FirstTable(xs).Some? then FirstTable(xs) else FirstTable(ys)
    decreases |xs|
  {
    if xs == [] {
      assert xs + ys == ys;
    } else {
      assert (xs + ys)[0] == xs[0];
      assert (xs + ys)[1..] == xs[1..] + ys;
      FirstTableAppend(xs[1..], ys);
    }
  }

  /** The table found is the first `AXTable` in pre-order, and none is
      found exactly when the snapshot has no `AXTable`. */
  lemma {:induction false} FindTableIsFirst(n: Json)
    ensures FindTable(n) == FirstTable(PreOrder(n))
    decreases n, 1
  {
    match n
    case Obj(_, _, cs) =>
      FindTableAllIsFirst(cs);
      FirstTableAppend([n], PreOrderAll(cs));
    case Arr(items) =>
      FindTableAllIsFirst(items);
    case Atom =>
  }

  lemma {:induction false} FindTableAllIsFirst(ns: seq<Json>)
    ensures FindTableAll(ns) == FirstTable(PreOrderAll(ns))
    decreases ns, 0
  {
    if ns != [] {
      FindTableIsFirst(ns[0]);
      FindTableAllIsFirst(ns[1..]);
      FirstTableAppend(PreOrder(ns[0]), PreOrderAll(ns[1..]));
    }
  }

  // ------------------------------------------------------------ one row

  /** The per-row variables, "" while unset (only their truth value
      matters). */
  datatype Fields = Fields(speaker: string, timestamp: string, dialogue: string)

  /** `":" in value and (value.count(":") == 1 or value.count(":") == 2)`:
      "HH:MM" or "HH:MM:SS". */
  predicate IsTimeLike(v: string) {
    ':' in v && (Count(v, ':') == 1 || Count(v, ':') == 2)
  }

  /** The grandchild loop of lines 85-88: the stripped value of the first
      `AXTextArea`, `None` when there is none, `Err` when a non-object is
      met before it. */
  function FirstTextArea(gs: seq<Json>): Result<Option<string>, WebexError> {
    if gs == [] then Ok(None)
    else if !gs[0].Obj? then Err(NotAnObject)
    else if HasRole(gs[0], "AXTextArea") then Ok(Some(Strip(ValueOr(gs[0]))))
    else FirstTextArea(gs[1..])
  }

  /** One child of the first cell (lines 74-88). */
  function ChildStep(f: Fields, child: Json): Result<Fields, WebexError> {
    if !child.Obj? then Err(NotAnObject)
    else if HasRole(child, "AXStaticText") then
      var v := ValueOr(child);
      if IsTimeLike(v) then Ok(f.(timestamp := Strip(v))) else Ok(f.(speaker := Strip(v)))
    else if HasRole(child, "AXScrollArea") then
      match FirstTextArea(child.children)
      case Err(e) => Err(e)
      case Ok(None) => Ok(f)
      case Ok(Some(d)) => Ok(f.(dialogue := d))
    else Ok(f)
  }

  /** The variables after the children `cs`, in order. */
  function CellFields(cs: seq<Json>): Result<Fields, WebexError> {
    if cs == [] then Ok(Fields("", "", ""))
    else
      match CellFields(cs[..|cs| - 1])
      case Err(e) => Err(e)
      case Ok(f) => ChildStep(f, cs[|cs| - 1])
  }

  /** Whether a row is examined at all: an `AXRow` whose first child is an
      `AXCell`. */
  predicate Qualifies(row: Json) {
    HasRole(row, "AXRow") && row.children != [] && HasRole(row.children[0], "AXCell")
  }

  /** What one table row contributes: a triple when speaker, timestamp and
      dialogue were all found, nothing otherwise, or the crash. */
  function ReadRow(row: Json): Result<Option<Triple>, WebexError> {
    if !row.Obj? then Err(NotAnObject)
    else if row.role != Some("AXRow") then Ok(None)
    else if row.children == [] then Ok(None)
    else if !row.children[0].Obj? then Err(NotAnObject)
    else if row.children[0].role != Some("AXCell") then Ok(None)
    else
      match CellFields(row.children[0].children)
      case Err(e) => Err(e)
      case Ok(f) =>
        if f.speaker != "" && f.timestamp != "" && f.dialogue != ""
        then Ok(Some(Triple(f.speaker, f.timestamp, f.dialogue))) else Ok(None)
  }

  function RowParts(rows: seq<Json>): Result<seq<Triple>, WebexError> {
    if rows == [] then Ok([])
    else
      match RowParts(rows[..|rows| - 1])
      case Err(e) => Err(e)
      case Ok(ps) =>
        match ReadRow(rows[|rows| - 1])
        case Err(e) => Err(e)
        case Ok(None) => Ok(ps)
        case Ok(Some(t)) => Ok(ps + [t])
  }

  /** What `parse_webex_json(data)` returns, or the crash. */
  function ParseWebex(data: Json): Result<seq<Triple>, WebexError> {
    match FindTable(data)
    case None => Ok([])
    case Some(table) => RowParts(table.children)
  }

  lemma CellFieldsSnoc(cs: seq<Json>, c: Json)
    ensures CellFields(cs + [c]) == match CellFields(cs)
      case Err(e) => Err(e)
      case Ok(f) => ChildStep(f, c)
  {
    assert (cs + [c])[..|cs|] == cs;
  }

  lemma RowPartsSnoc(rows: seq<Json>, row: Json)
    ensures RowParts(rows + [row]) == match RowParts(rows)
      case Err(e) => Err(e)
      case Ok(ps) => (match ReadRow(row)
        case Err(e) => Err(e)
        case Ok(None) => Ok(ps)
        case Ok(Some(t)) => Ok(ps + [t]))
  {
    assert (rows + [row])[..|rows|] == rows;
  }

  /** A crash on a child is not recovered from. */
  lemma {:induction false} CellFieldsErrPrefix(cs: seq<Json>, n: nat)
    requires n <= |cs| && CellFields(cs[..n]).Err?
    ensures CellFields(cs) == Err(NotAnObject)
    decreases |cs|
  {
    if n < |cs| {
      var init := cs[..|cs| - 1];
      assert init[..n] == cs[..n];
      CellFieldsErrPrefix(init, n);
    } else {
      assert cs[..n] == cs;
      assert CellFields(cs).error.NotAnObject?;
    }
  }

  /** A crash on a row is not recovered from: later rows are never read. */
  lemma {:induction false} RowPartsErrPrefix(rows: seq<Json>, n: nat)
    requires n <= |rows| && RowParts(rows[..n]).Err?
    ensures RowParts(rows) == Err(NotAnObject)
    decreases |rows|
  {
    if n < |rows| {
      var init := rows[..|rows| - 1];
      assert init[..n] == rows[..n];
      RowPartsErrPrefix(init, n);
    } else {
      assert rows[..n] == rows;
      assert RowParts(rows).error.NotAnObject?;
    }
  }

  // ------------------------------------------------------------ the parser

  /** The loop of lines 85-88, leaving at the first `AXTextArea`. */
  method ScrollAreaDialogue(grandchildren: seq<Json>) returns (r: Result<Option<string>, WebexError>)
    ensures r == FirstTextArea(grandchildren)
  {
    var k := 0;
    while k < |grandchildren|
      invariant 0 <= k <= |grandchildren|
      invariant FirstTextArea(grandchildren) == FirstTextArea(grandchildren[k..])
    {
      var g := grandchildren[k];
      assert grandchildren[k..][1..] == grandchildren[k + 1..];
      if !g.Obj? {
        return Err(NotAnObject);
      }
      if g.role == Some("AXTextArea") {
        return Ok(Some(Strip(ValueOr(g))));
      }
      k := k + 1;
    }
    return Ok(None);
  }

  /** The loop of lines 73-88 over the children of a row's first cell. */
  method ReadCell(children: seq<Json>) returns (r: Result<Fields, WebexError>)
    ensures r == CellFields(children)
  {
    var speaker := "";
    var timestamp := "";
    var dialogue := "";
    for j := 0 to |children|
      invariant CellFields(children[..j]) == Ok(Fields(speaker, timestamp, dialogue))
    {
      var child := children[j];
      assert children[..j + 1] == children[..j] + [child];
      CellFieldsSnoc(children[..j], child);
      if !child.Obj? {
        CellFieldsErrPrefix(children, j + 1);
        return Err(NotAnObject);
      }
      var role := child.role;
      var value := ValueOr(child);
      if role == Some("AXStaticText") {
        if ':' in value && (Count(value, ':') == 1 || Count(value, ':') == 2) {
          timestamp := Strip(value);
        } else {
          speaker := Strip(value);
        }
      } else if role == Some("AXScrollArea") {
        var found := ScrollAreaDialogue(child.children);
        match found {
          case Err(e) =>
            CellFieldsErrPrefix(children, j + 1);
            return Err(NotAnObject);
          case Ok(None) =>
          case Ok(Some(d)) =>
            dialogue := d;
        }
      }
    }
    assert children[..|children|] == children;
    return Ok(Fields(speaker, timestamp, dialogue));
  }

  /** `parse_webex_json(data)`. */
  method ParseWebexJson(data: Json) returns (r: Result<seq<Triple>, WebexError>)
    ensures r == ParseWebex(data)
  {
    var table := FindTable(data);
    if table.None? {
      return Ok([]);
    }
    var rows := table.value.children;
    var parts: seq<Triple> := [];
    for i := 0 to |rows|
      invariant RowParts(rows[..i]) == Ok(parts)
    {
      var row := rows[i];
      assert rows[..i + 1] == rows[..i] + [row];
      RowPartsSnoc(rows[..i], row);
      if !row.Obj? {
        RowPartsErrPrefix(rows, i + 1);
        return Err(NotAnObject);
      }
      if row.role != Some("AXRow") {
        continue;
      }
      var cells := row.children;
      if cells == [] {
        continue;
      }
      if !cells[0].Obj? {
        RowPartsErrPrefix(rows, i + 1);
        return Err(NotAnObject);
      }
      if cells[0].role != Some("AXCell") {
        continue;
      }
      var read := ReadCell(cells[0].children);
      if read.Err? {
        RowPartsErrPrefix(rows, i + 1);
        return Err(NotAnObject);
      }
      var fields := read.value;
      if fields.speaker != "" && fields.timestamp != "" && fields.dialogue != "" {
        parts := parts + [Triple(fields.speaker, fields.timestamp, fields.dialogue)];
      }
    }
    assert rows[..|rows|] == rows;
    return Ok(parts);
  }

  // ------------------------------------------------------------ properties

  /** Without a table there is nothing to parse and nothing can fail. */
  lemma NoTableNoParts(data: Json)
    requires forall k :: 0 <= k < |PreOrder(data)| ==> !HasRole(PreOrder(data)[k], "AXTable")
    ensures ParseWebex(data) == Ok([])
  {
    FindTableIsFirst(data);
  }

  /** A static text that is not time-like names the speaker. */
  predicate IsSpeakerText(c: Json) {
    HasRole(c, "AXStaticText") && !IsTimeLike(ValueOr(c))
  }

  predicate IsStampText(c: Json) {
    HasRole(c, "AXStaticText") && IsTimeLike(ValueOr(c))
  }

  /** A scroll area holding a text area. */
  predicate HasDialogue(c: Json) {
    HasRole(c, "AXScrollArea") && FirstTextArea(c.children).Ok? && FirstTextArea(c.children).value.Some?
  }

  /** The last speaker text among `cs`, stripped, or "" when there is none. */
  function LastSpeaker(cs: seq<Json>): string {
    if cs == [] then ""
    else if IsSpeakerText(cs[|cs| - 1]) then Strip(ValueOr(cs[|cs| - 1]))
    else LastSpeaker(cs[..|cs| - 1])
  }

  function LastStamp(cs: seq<Json>): string {
    if cs == [] then ""
    else if IsStampText(cs[|cs| - 1]) then Strip(ValueOr(cs[|cs| - 1]))
    else LastStamp(cs[..|cs| - 1])
  }

  function LastDialogue(cs: seq<Json>): string {
    if cs == [] then ""
    else if HasDialogue(cs[|cs| - 1]) then FirstTextArea(cs[|cs| - 1].children).value.value
    else LastDialogue(cs[..|cs| - 1])
  }

  /** Later children override earlier ones: each field is set by the last
      child of its kind. */
  lemma {:induction false} CellFieldsLast(cs: seq<Json>)
    requires CellFields(cs).Ok?
    ensures CellFields(cs).value == Fields(LastSpeaker(cs), LastStamp(cs), LastDialogue(cs))
    decreases |cs|
  {
    if cs != [] {
      var init := cs[..|cs| - 1];
      assert CellFields(init).Ok?;
      CellFieldsLast(init);
    }
  }

  /** The stripped text area value found in a scroll area has no
      surrounding whitespace. */
  lemma {:induction false} FirstTextAreaTrimmed(gs: seq<Json>)
    requires FirstTextArea(gs).Ok? && FirstTextArea(gs).value.Some?
    ensures Trimmed(FirstTextArea(gs).value.value)
    decreases |gs|
  {
    if !HasRole(gs[0], "AXTextArea") {
      FirstTextAreaTrimmed(gs[1..]);
    }
  }

  /** The fields a cell always gives: stripped, and a timestamp with one or
      two colons. */
  ghost predicate FieldsShape(f: Fields) {
    Trimmed(f.speaker) && Trimmed(f.dialogue) && Trimmed(f.timestamp)
    && (f.timestamp != "" ==> Count(f.timestamp, ':') == 1 || Count(f.timestamp, ':') == 2)
  }

  lemma {:induction false} CellFieldsShape(cs: seq<Json>)
    requires CellFields(cs).Ok?
    ensures FieldsShape(CellFields(cs).value)
    decreases |cs|
  {
    if cs != [] {
      var init := cs[..|cs| - 1];
      var c := cs[|cs| - 1];
      assert CellFields(init).Ok?;
      CellFieldsShape(init);
      if HasRole(c, "AXStaticText") && IsTimeLike(ValueOr(c)) {
        StripKeepsCount(ValueOr(c), ':');
      } else if HasRole(c, "AXScrollArea") && FirstTextArea(c.children).value.Some? {
        FirstTextAreaTrimmed(c.children);
      }
    }
  }

  /** The shape of every triple: non-empty stripped fields and a timestamp
      with one or two colons. */
  ghost predicate WellFormedTriple(t: Triple) {
    t.speaker != "" && Trimmed(t.speaker)
    && t.dialogue != "" && Trimmed(t.dialogue)
    && t.timestamp != "" && Trimmed(t.timestamp)
    && (Count(t.timestamp, ':') == 1 || Count(t.timestamp, ':') == 2)
  }

  /** A row contributes a triple exactly when it qualifies and its cell
      names a speaker, a timestamp and a dialogue, all non-empty; that
      triple is well formed. */
  lemma ReadRowSpec(row: Json)
    requires ReadRow(row).Ok?
    ensures ReadRow(row).value.Some? <==> (Qualifies(row)
      && var f := CellFields(row.children[0].children).value;
         f.speaker != "" && f.timestamp != "" && f.dialogue != "")
    ensures ReadRow(row).value.Some? ==> WellFormedTriple(ReadRow(row).value.value)
  {
    if Qualifies(row) {
      CellFieldsShape(row.children[0].children);
    }
  }

  /** Rows are read independently: the triples of two runs of rows are
      the triples of each, in order. */
  lemma {:induction false} RowPartsAppend(xs: seq<Json>, ys: seq<Json>)
    requires RowParts(xs + ys).Ok?
    ensures RowParts(xs).Ok? && RowParts(ys).Ok?
    ensures RowParts(xs + ys).value == RowParts(xs).value + RowParts(ys).value
    decreases |ys|
  {
    if ys == [] {
      assert xs + ys == xs;
    } else {
      var init := ys[..|ys| - 1];
      var last := ys[|ys| - 1];
      assert xs + ys == (xs + init) + [last];
      RowPartsSnoc(xs + init, last);
      assert RowParts(xs + init).Ok?;
      RowPartsAppend(xs, init);
      assert ys == init + [last];
      RowPartsSnoc(init, last);
      var a, b := RowParts(xs).value, RowParts(init).value;
      match ReadRow(last)
      case Ok(None) =>
      case Ok(Some(t)) =>
        assert a + b + [t] == a + (b + [t]);
    }
  }

  /** The number of rows that are examined at all. */
  function QualifyingRows(rows: seq<Json>): nat {
    if rows == [] then 0
    else QualifyingRows(rows[..|rows| - 1]) + if Qualifies(rows[|rows| - 1]) then 1 else 0
  }

  /** At most one triple per qualifying row, each well formed. */
  lemma {:induction false} RowPartsBound(rows: seq<Json>)
    requires RowParts(rows).Ok?
    ensures |RowParts(rows).value| <= QualifyingRows(rows)
    ensures forall t :: t in RowParts(rows).value ==> WellFormedTriple(t)
    decreases |rows|
  {
    if rows != [] {
      var init := rows[..|rows| - 1];
      assert RowParts(init).Ok?;
      RowPartsBound(init);
      ReadRowSpec(rows[|rows| - 1]);
    }
  }

  /** The parser's result: no more triples than qualifying table rows, and
      every one well formed. */
  lemma ParseWebexBound(data: Json, table: Json)
    requires FindTable(data) == Some(table) && ParseWebex(data).Ok?
    ensures |ParseWebex(data).value| <= QualifyingRows(table.children)
    ensures forall t :: t in ParseWebex(data).value ==> WellFormedTriple(t)
  {
    RowPartsBound(table.children);
  }
}
