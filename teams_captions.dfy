/** Caption extraction from one Microsoft Teams snapshot
    (`find_transcript_parts_teams`): a pre-order search for caption groups,
    each an `AXGroup` with exactly two children, a speaker group holding one
    `AXStaticText` label and an `AXStaticText` caption. */
module TeamsCaptions {
  import opened Tree
  import opened Text

  /** One caption: a `(speaker, text)` pair. */
  datatype Part = Part(speaker: string, text: string)

  // ------------------------------------------------------------ speaker label

  /** The regular expression `\s*\(.*\)\s*$` matches `s[p..]`, with the
      parenthesis opening at `o` and closing at `q`; `.` matches anything
      except a line feed. */
  ghost predicate ParenSuffix(s: string, p: int, o: int, q: int) {
    0 <= p <= o < q < |s| && AllSpace(s[p..o]) && s[o] == '('
    && '\n' !in s[o + 1..q] && s[q] == ')' && AllSpace(s[q + 1..])
  }

  /** `re.search` for the suffix pattern succeeds at position `p`. */
  ghost predicate SuffixMatchesAt(s: string, p: int) {
    exists o, q :: ParenSuffix(s, p, o, q)
  }

  /** The start of the line that index `q` is on. */
  function LineStart(s: string, q: nat): (l: nat)
    requires q <= |s|
    ensures l <= q && '\n' !in s[l..q]
    ensures l == 0 || s[l - 1] == '\n'
  {
    if q == 0 || s[q - 1] == '\n' then q
    else
      var l := LineStart(s, q - 1);
      assert s[l..q] == s[l..q - 1] + [s[q - 1]];
      l
  }

  /** The first `(` in `s[i..q]`. */
  function FirstOpen(s: string, i: nat, q: nat): (o: Option<nat>)
    requires i <= q <= |s|
    ensures o.None? ==> forall k :: i <= k < q ==> s[k] != '('
    ensures o.Some? ==> i <= o.value < q && s[o.value] == '('
    ensures o.Some? ==> forall k :: i <= k < o.value ==> s[k] != '('
    decreases q - i
  {
    if i == q then None
    else if s[i] == '(' then Some(i)
    else FirstOpen(s, i + 1, q)
  }

  /** The start of the run of whitespace that ends at `o`. */
  function SpaceRunStart(s: string, o: nat): (p: nat)
    requires o <= |s|
    ensures p <= o && AllSpace(s[p..o])
    ensures p == 0 || !IsSpace(s[p - 1])
  {
    if o == 0 || !IsSpace(s[o - 1]) then o
    else
      var p := SpaceRunStart(s, o - 1);
      assert s[p..o] == s[p..o - 1] + [s[o - 1]];
      p
  }

  /** Where `re.sub(r'\s*\(.*\)\s*$', '', s)` starts cutting, if anywhere. */
  function ParenCut(s: string): Option<nat>
  {
    var u := |TrimRight(s)|;
    if u == 0 || s[u - 1] != ')' then None
    else
      match FirstOpen(s, LineStart(s, u - 1), u - 1)
      case None => None
      case Some(o) => Some(SpaceRunStart(s, o))
  }

  /** `re.sub(r'\s*\(.*\)\s*$', '', name).strip()`: the label without a
      trailing parenthesised annotation such as "(Guest)". */
  function CleanSpeaker(name: string): (r: string)
    ensures Trimmed(r)
  {
    match ParenCut(name)
    case None => Strip(name)
    case Some(p) => Strip(name[..p])
  }

  lemma MatchFacts(s: string, p: int, o: int, q: int)
    requires ParenSuffix(s, p, o, q)
    ensures q + 1 == |TrimRight(s)|
    ensures o >= LineStart(s, q)
    ensures p >= SpaceRunStart(s, o)
  {
    MatchEndsAtTrim(s, p, o, q);
    SliceSpace(s, p, o);
  }

  lemma MatchEndsAtTrim(s: string, p: int, o: int, q: int)
    requires ParenSuffix(s, p, o, q)
    ensures q + 1 == |TrimRight(s)|
  {
    var r := TrimRight(s);
    var u := |r|;
    assert s[q + 1..] == s[q + 1..|s|];
    SliceSpace(s, q + 1, |s|);
    assert s[u..] == s[u..|s|];
    SliceSpace(s, u, |s|);
    assert !IsSpace(s[q]);
    if u > 0 {
      assert r[u - 1] == s[u - 1];
    }
  }

  lemma MatchAtCut(s: string, o: nat)
    requires |TrimRight(s)| > 0 && s[|TrimRight(s)| - 1] == ')'
    requires LineStart(s, |TrimRight(s)| - 1) <= o < |TrimRight(s)| - 1 && s[o] == '('
    ensures ParenSuffix(s, SpaceRunStart(s, o), o, |TrimRight(s)| - 1)
  {
    var q := |TrimRight(s)| - 1;
    var l := LineStart(s, q);
    assert s[o + 1..q] == s[l..q][o + 1 - l..];
  }

  /** Any match position is at or after the position `ParenCut` reports. */
  lemma CutNotAfterMatch(s: string, p: int, o: int, q: int)
    requires ParenSuffix(s, p, o, q)
    ensures ParenCut(s).Some? && ParenCut(s).value <= p
  {
    MatchFacts(s, p, o, q);
    var l := LineStart(s, q);
    var first := FirstOpen(s, l, q);
    assert first.Some? && first.value <= o;
    var o1 := first.value;
    assert ParenCut(s) == Some(SpaceRunStart(s, o1));
    SliceSpace(s, p, o);
    assert !IsSpace(s[o1]);
  }

  lemma SliceSpace(s: string, p: int, o: int)
    requires 0 <= p <= o <= |s| && AllSpace(s[p..o])
    ensures forall k :: p <= k < o ==> IsSpace(s[k])
  {
    forall k | p <= k < o ensures IsSpace(s[k]) {
      assert s[p..o][k - p] == s[k];
    }
  }

  /** `ParenCut` finds the leftmost position where the suffix pattern matches,
      and finds nothing exactly when the pattern matches nowhere. */
  lemma ParenCutIsLeftmostMatch(s: string)
    ensures ParenCut(s).None? ==> forall p :: !SuffixMatchesAt(s, p)
    ensures ParenCut(s).Some? ==> SuffixMatchesAt(s, ParenCut(s).value)
    ensures ParenCut(s).Some? ==> forall p :: 0 <= p < ParenCut(s).value ==> !SuffixMatchesAt(s, p)
  {
    var u := |TrimRight(s)|;
    forall p | SuffixMatchesAt(s, p)
      ensures ParenCut(s).Some? && ParenCut(s).value <= p
    {
      var o, q :| ParenSuffix(s, p, o, q);
      CutNotAfterMatch(s, p, o, q);
    }
    if ParenCut(s).Some? {
      var o := FirstOpen(s, LineStart(s, u - 1), u - 1).value;
      MatchAtCut(s, o);
    }
  }

  /** On a first line, the line starts at 0. */
  lemma {:induction false} LineStartOfFirstLine(s: string, q: nat)
    requires q <= |s| && forall k :: 0 <= k < q ==> s[k] != '\n'
    ensures LineStart(s, q) == 0
    decreases q
  {
    if q > 0 {
      LineStartOfFirstLine(s, q - 1);
    }
  }

  /** `FirstOpen` finds the first `(`. */
  lemma {:induction false} FirstOpenFinds(s: string, i: nat, q: nat, o: nat)
    requires i <= o < q <= |s| && s[o] == '('
    requires forall k :: i <= k < o ==> s[k] != '('
    ensures FirstOpen(s, i, q) == Some(o)
    decreases o - i
  {
    if i < o {
      FirstOpenFinds(s, i + 1, q, o);
    }
  }

  lemma ExampleCut()
    ensures ParenCut("Jane Doe (Guest)") == Some(8)
  {
    var s := "Jane Doe (Guest)";
    assert TrimRight(s) == s by {
      assert !IsSpace(s[15]);
    }
    assert forall k :: 0 <= k < 15 ==> s[k] != '\n';
    LineStartOfFirstLine(s, 15);
    assert forall k :: 0 <= k < 9 ==> s[k] != '(';
    FirstOpenFinds(s, 0, 15, 9);
    assert SpaceRunStart(s, 9) == 8 by {
      assert IsSpace(s[8]) && !IsSpace(s[7]);
    }
  }

  lemma ExampleStrip()
    ensures Strip("Jane Doe (Guest)"[..8]) == "Jane Doe"
  {
    assert "Jane Doe (Guest)"[..8] == "Jane Doe";
    StripUnique("Jane Doe", 0, "Jane Doe");
  }

  /** "Jane Doe (Guest)" is cleaned to "Jane Doe". */
  lemma CleanSpeakerExample()
    ensures CleanSpeaker("Jane Doe (Guest)") == "Jane Doe"
  {
    ExampleCut();
    ExampleStrip();
  }

  // ------------------------------------------------------------ caption groups

  /** Child one of a caption group: an `AXGroup` whose single child is an
      `AXStaticText` with a `value`. */
  predicate IsSpeakerGroup(c: Json) {
    HasRole(c, "AXGroup") && |c.children| == 1
    && HasRole(c.children[0], "AXStaticText") && c.children[0].value.Some?
  }

  /** Child two of a caption group: an `AXStaticText` with a `value`. */
  predicate IsTextElement(c: Json) {
    HasRole(c, "AXStaticText") && c.value.Some?
  }

  predicate IsCaptionGroup(n: Json) {
    HasRole(n, "AXGroup") && |n.children| == 2
    && IsSpeakerGroup(n.children[0]) && IsTextElement(n.children[1])
  }

  function LabelOf(n: Json): string
    requires IsCaptionGroup(n)
  {
    n.children[0].children[0].value.value
  }

  function TextOf(n: Json): string
    requires IsCaptionGroup(n)
  {
    n.children[1].value.value
  }

  /** What a part must look like: its text has been whitespace-normalised and
      is not empty, its speaker has no surrounding whitespace. */
  ghost predicate WellFormedPart(p: Part) {
    p.text != [] && Canonical(p.text) && Trimmed(p.speaker)
  }

  /** The part a caption group contributes: none when the caption is blank. */
  function CaptionOf(n: Json): (ps: seq<Part>)
    requires IsCaptionGroup(n)
    ensures |ps| <= 1
    ensures forall p :: p in ps ==> WellFormedPart(p)
  {
    var text := Normalize(TextOf(n));
    NormalizeCanonical(TextOf(n));
    if text != [] then [Part(CleanSpeaker(LabelOf(n)), text)] else []
  }

  /** `find_transcript_parts_teams(node)`. A caption group yields its part
      and is not searched further; any other object is searched child by
      child, as is an array item by item. */
  function FindParts(n: Json): (ps: seq<Part>)
    ensures forall p :: p in ps ==> WellFormedPart(p)
    decreases n, 1
  {
    match n
    case Obj(_, _, cs) => if IsCaptionGroup(n) then CaptionOf(n) else FindPartsAll(cs)
    case Arr(items) => FindPartsAll(items)
    case Atom => []
  }

  function FindPartsAll(ns: seq<Json>): (ps: seq<Part>)
    ensures forall p :: p in ps ==> WellFormedPart(p)
    decreases ns, 0
  {
    if ns == [] then [] else FindParts(ns[0]) + FindPartsAll(ns[1..])
  }

  // ------------------------------------------------------------ properties

  /** A caption group yields exactly one part unless its caption is blank;
      the part carries the normalised caption and the cleaned label. */
  lemma CaptionGroupYields(n: Json)
    requires IsCaptionGroup(n)
    ensures |FindParts(n)| == 1 <==> !AllSpace(TextOf(n))
    ensures FindParts(n) == [] <==> AllSpace(TextOf(n))
    ensures |FindParts(n)| == 1 ==>
      FindParts(n)[0] == Part(CleanSpeaker(LabelOf(n)), Normalize(TextOf(n)))
  {
    NormalizeEmpty(TextOf(n));
  }

  /** Search results of consecutive siblings are concatenated in order. */
  lemma {:induction false} FindPartsAllAppend(xs: seq<Json>, ys: seq<Json>)
    ensures FindPartsAll(xs + ys) == FindPartsAll(xs) + FindPartsAll(ys)
    decreases xs
  {
    if xs == [] {
      assert xs + ys == ys;
    } else {
      assert (xs + ys)[0] == xs[0];
      assert (xs + ys)[1..] == xs[1..] + ys;
      FindPartsAllAppend(xs[1..], ys);
    }
  }

  /** An object that is not a caption group is searched exactly like the
      array of its children, and the search over an array distributes over
      splitting the array. */
  lemma NonCaptionLikeArray(role: Option<string>, value: Option<string>, xs: seq<Json>, ys: seq<Json>)
    requires !IsCaptionGroup(Obj(role, value, xs + ys))
    ensures FindParts(Obj(role, value, xs + ys)) == FindParts(Arr(xs)) + FindParts(Arr(ys))
  {
    FindPartsAllAppend(xs, ys);
  }

  /** Every part comes from a caption group somewhere in the tree. */
  lemma {:induction false} PartsComeFromCaptionGroups(n: Json)
    ensures forall p :: p in FindParts(n) ==>
      exists m :: m in PreOrder(n) && IsCaptionGroup(m) && CaptionOf(m) == [p]
    decreases n, 1
  {
    match n
    case Obj(_, _, cs) =>
      if IsCaptionGroup(n) {
        assert n in PreOrder(n);
      } else {
        PartsComeFromCaptionGroupsAll(cs);
      }
    case Arr(items) => PartsComeFromCaptionGroupsAll(items);
    case Atom =>
  }

  lemma {:induction false} PartsComeFromCaptionGroupsAll(ns: seq<Json>)
    ensures forall p :: p in FindPartsAll(ns) ==>
      exists m :: m in PreOrderAll(ns) && IsCaptionGroup(m) && CaptionOf(m) == [p]
    decreases ns, 0
  {
    if ns != [] {
      PartsComeFromCaptionGroups(ns[0]);
      PartsComeFromCaptionGroupsAll(ns[1..]);
      forall p | p in FindPartsAll(ns)
        ensures exists m :: m in PreOrderAll(ns) && IsCaptionGroup(m) && CaptionOf(m) == [p]
      {
        if p in FindParts(ns[0]) {
          var m :| m in PreOrder(ns[0]) && IsCaptionGroup(m) && CaptionOf(m) == [p];
          assert m in PreOrderAll(ns);
        } else {
          var m :| m in PreOrderAll(ns[1..]) && IsCaptionGroup(m) && CaptionOf(m) == [p];
          assert m in PreOrderAll(ns);
        }
      }
    }
  }

  // ------------------------------------------------------------ completeness

  /** The objects the search visits, in order: like `PreOrder`, except that
      a caption group is not descended into. */
  ghost function Searched(n: Json): seq<Json>
    decreases n, 1
  {
    match n
    case Obj(_, _, cs) => if IsCaptionGroup(n) then [n] else [n] + SearchedAll(cs)
    case Arr(items) => SearchedAll(items)
    case Atom => []
  }

  ghost function SearchedAll(ns: seq<Json>): seq<Json>
    decreases ns, 0
  {
    if ns == [] then [] else Searched(ns[0]) + SearchedAll(ns[1..])
  }

  /** The parts the caption groups among `ms` contribute, in order. */
  function CaptionsIn(ms: seq<Json>): (ps: seq<Part>)
    ensures |ps| <= |ms|
  {
    if ms == [] then []
    else (if IsCaptionGroup(ms[0]) then CaptionOf(ms[0]) else []) + CaptionsIn(ms[1..])
  }

  lemma {:induction false} CaptionsInAppend(xs: seq<Json>, ys: seq<Json>)
    ensures CaptionsIn(xs + ys) == CaptionsIn(xs) + CaptionsIn(ys)
    decreases |xs|
  {
    if xs == [] {
      assert xs + ys == ys;
    } else {
      var h := if IsCaptionGroup(xs[0]) then CaptionOf(xs[0]) else [];
      assert (xs + ys)[0] == xs[0];
      assert (xs + ys)[1..] == xs[1..] + ys;
      assert CaptionsIn(xs + ys) == h + CaptionsIn(xs[1..] + ys);
      CaptionsInAppend(xs[1..], ys);
      assert CaptionsIn(xs) == h + CaptionsIn(xs[1..]);
      assert h + (CaptionsIn(xs[1..]) + CaptionsIn(ys)) == h + CaptionsIn(xs[1..]) + CaptionsIn(ys);
    }
  }

  /** The search yields exactly the parts of the caption groups it visits,
      in visiting order. */
  lemma {:induction false} FindPartsIsCaptionsIn(n: Json)
    ensures FindParts(n) == CaptionsIn(Searched(n))
    decreases n, 1
  {
    match n
    case Obj(_, _, cs) =>
      if IsCaptionGroup(n) {
        assert [n][1..] == [];
      } else {
        FindPartsAllIsCaptionsIn(cs);
        assert ([n] + SearchedAll(cs))[1..] == SearchedAll(cs);
      }
    case Arr(items) => FindPartsAllIsCaptionsIn(items);
    case Atom =>
  }

  lemma {:induction false} FindPartsAllIsCaptionsIn(ns: seq<Json>)
    ensures FindPartsAll(ns) == CaptionsIn(SearchedAll(ns))
    decreases ns, 0
  {
    if ns != [] {
      FindPartsIsCaptionsIn(ns[0]);
      FindPartsAllIsCaptionsIn(ns[1..]);
      CaptionsInAppend(Searched(ns[0]), SearchedAll(ns[1..]));
    }
  }

  /** Every visited caption group whose caption is not blank contributes its
      part. */
  lemma {:induction false} CaptionsInComplete(ms: seq<Json>, m: Json)
    requires m in ms && IsCaptionGroup(m) && !AllSpace(TextOf(m))
    ensures Part(CleanSpeaker(LabelOf(m)), Normalize(TextOf(m))) in CaptionsIn(ms)
    decreases |ms|
  {
    NormalizeEmpty(TextOf(m));
    if ms[0] != m {
      CaptionsInComplete(ms[1..], m);
    }
  }

  /** The converse of `PartsComeFromCaptionGroups`: every caption group the
      search reaches (one not nested inside another caption group) whose
      caption is not blank contributes its part. */
  lemma CaptionGroupsGiveParts(n: Json, m: Json)
    requires m in Searched(n) && IsCaptionGroup(m) && !AllSpace(TextOf(m))
    ensures Part(CleanSpeaker(LabelOf(m)), Normalize(TextOf(m))) in FindParts(n)
  {
    FindPartsIsCaptionsIn(n);
    CaptionsInComplete(Searched(n), m);
  }

  /** The search only visits objects of the tree. */
  lemma {:induction false} SearchedInPreOrder(n: Json)
    ensures forall m :: m in Searched(n) ==> m in PreOrder(n)
    decreases n, 1
  {
    match n
    case Obj(_, _, cs) => if !IsCaptionGroup(n) { SearchedAllInPreOrder(cs); }
    case Arr(items) => SearchedAllInPreOrder(items);
    case Atom =>
  }

  lemma {:induction false} SearchedAllInPreOrder(ns: seq<Json>)
    ensures forall m :: m in SearchedAll(ns) ==> m in PreOrderAll(ns)
    decreases ns, 0
  {
    if ns != [] {
      SearchedInPreOrder(ns[0]);
      SearchedAllInPreOrder(ns[1..]);
    }
  }
}
