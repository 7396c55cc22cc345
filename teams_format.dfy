/** The Teams output format (`format_combined_transcript`): consecutive parts
    by one speaker are merged into a block, and each block is written as a
    `[speaker]` line followed by its text and a blank line. */
module TeamsFormat {
  import opened Tree
  import opened Text
  import opened TeamsCaptions

  /** A maximal run of consecutive parts by one speaker. */
  datatype Block = Block(speaker: string, texts: seq<string>)

  /** One part more: it joins the last block when that block has the same
      speaker and opens a new block otherwise. */
  function Step(bs: seq<Block>, p: Part): (r: seq<Block>)
    ensures r != [] && r[|r| - 1].speaker == p.speaker
  {
    if bs != [] && bs[|bs| - 1].speaker == p.speaker then
      bs[..|bs| - 1] + [Block(p.speaker, bs[|bs| - 1].texts + [p.text])]
    else
      bs + [Block(p.speaker, [p.text])]
  }

  /** The parts grouped into runs of equal speaker, in order. The first part
      always opens a block: the formatter starts with no current speaker,
      which equals no speaker name, not even the empty one. */
  function Blocks(ps: seq<Part>): (bs: seq<Block>)
    ensures ps == [] <==> bs == []
  {
    if ps == [] then [] else Step(Blocks(ps[..|ps| - 1]), ps[|ps| - 1])
  }

  lemma BlocksSnoc(ps: seq<Part>, p: Part)
    ensures Blocks(ps + [p]) == Step(Blocks(ps), p)
  {
    assert (ps + [p])[..|ps|] == ps;
  }

  lemma BlocksPrefix(ps: seq<Part>, i: nat)
    requires i < |ps|
    ensures Blocks(ps[..i + 1]) == Step(Blocks(ps[..i]), ps[i])
  {
    assert ps[..i + 1][..i] == ps[..i];
  }

  /** Neither empty blocks nor two neighbouring blocks with one speaker. */
  ghost predicate MaximalRuns(bs: seq<Block>) {
    (forall k :: 0 <= k < |bs| ==> bs[k].texts != [])
    && (forall k :: 0 <= k < |bs| - 1 ==> bs[k].speaker != bs[k + 1].speaker)
  }

  lemma StepKeepsMaximalRuns(bs: seq<Block>, p: Part)
    requires MaximalRuns(bs)
    ensures MaximalRuns(Step(bs, p))
  {
    var r := Step(bs, p);
    if bs != [] && bs[|bs| - 1].speaker == p.speaker {
      assert forall k :: 0 <= k < |bs| - 1 ==> r[k] == bs[k];
    } else {
      assert forall k :: 0 <= k < |bs| ==> r[k] == bs[k];
    }
  }

  /** The blocks are the maximal runs of one speaker. */
  lemma {:induction false} BlocksAreMaximalRuns(ps: seq<Part>)
    ensures MaximalRuns(Blocks(ps))
    decreases |ps|
  {
    if ps != [] {
      BlocksAreMaximalRuns(ps[..|ps| - 1]);
      StepKeepsMaximalRuns(Blocks(ps[..|ps| - 1]), ps[|ps| - 1]);
    }
  }

  /** The two lines a block is written as, or none when its speaker is empty
      or its text is blank. */
  function BlockLines(b: Block): seq<string>
  {
    if b.speaker != "" && b.texts != [] then
      var msg := Strip(Join(" ", b.texts));
      if msg != "" then ["[" + b.speaker + "]", msg + "\n"] else []
    else []
  }

  /** A block is written exactly when its speaker is named and its text is
      not blank; then as a tag line and the stripped text. */
  lemma BlockLinesSpec(b: Block)
    ensures BlockLines(b) == [] || |BlockLines(b)| == 2
    ensures BlockLines(b) != [] <==> b.speaker != "" && b.texts != [] && !AllSpace(Join(" ", b.texts))
    ensures BlockLines(b) != [] ==> BlockLines(b)[0] == "[" + b.speaker + "]"
    ensures BlockLines(b) != [] ==> BlockLines(b)[1] == Strip(Join(" ", b.texts)) + "\n"
  {
    StripOfAllSpace(Join(" ", b.texts));
  }

  function AllLines(bs: seq<Block>): seq<string> {
    if bs == [] then [] else AllLines(bs[..|bs| - 1]) + BlockLines(bs[|bs| - 1])
  }

  /** The complete output text for a list of parts. */
  function Rendered(ps: seq<Part>): string {
    Join("\n", AllLines(Blocks(ps)))
  }

  /** `format_combined_transcript(all_parts)`. Like the source, it keeps a
      current speaker and a text buffer and flushes the buffer into the
      output lines whenever the speaker changes, and once at the end. */
  method FormatCombinedTranscript(parts: seq<Part>) returns (out: string)
    ensures out == Rendered(parts)
  {
    if parts == [] {
      return "";
    }
    var lines: seq<string> := [];
    var current: Option<string> := None;
    var buffer: seq<string> := [];
    ghost var front: seq<Block> := [];
    for i := 0 to |parts|
      invariant Open(front, current, buffer) == Blocks(parts[..i])
      invariant current.None? ==> buffer == [] && front == []
      invariant lines == AllLines(front)
    {
      BlocksPrefix(parts, i);
      lines, current, buffer, front := FormatPart(lines, current, buffer, front, parts[i]);
    }
    assert parts[..|parts|] == parts;
    AllLinesSnoc(front, Block(current.value, buffer));
    lines, buffer := FlushBuffer(lines, current, buffer);
    out := Join("\n", lines);
  }

  /** The blocks seen so far: the finished ones and the one being collected. */
  ghost function Open(front: seq<Block>, current: Option<string>, buffer: seq<string>): seq<Block> {
    if current.None? then [] else front + [Block(current.value, buffer)]
  }

  /** One pass of the loop over the parts: a part by the current speaker
      joins the buffer; any other part flushes it and starts a new one. */
  method FormatPart(lines: seq<string>, current: Option<string>, buffer: seq<string>,
                    ghost front: seq<Block>, p: Part)
    returns (lines': seq<string>, current': Option<string>, buffer': seq<string>, ghost front': seq<Block>)
    requires current.None? ==> buffer == [] && front == []
    requires lines == AllLines(front)
    ensures current' == Some(p.speaker)
    ensures Open(front', current', buffer') == Step(Open(front, current, buffer), p)
    ensures lines' == AllLines(front')
  {
    if current == Some(p.speaker) {
      assert Open(front, current, buffer) == front + [Block(p.speaker, buffer)];
      StepSameSpeaker(front, Block(p.speaker, buffer), p);
      lines', current', buffer', front' := lines, current, buffer + [p.text], front;
    } else {
      front' := front;
      if current.Some? {
        AllLinesSnoc(front, Block(current.value, buffer));
        front' := front + [Block(current.value, buffer)];
      }
      StepOtherSpeaker(Open(front, current, buffer), p);
      lines', buffer' := FlushBuffer(lines, current, buffer);
      current' := Some(p.speaker);
      buffer' := buffer' + [p.text];
      assert buffer' == [p.text];
      assert front' == (if current.Some? then front + [Block(current.value, buffer)] else []);
      assert Open(front', current', buffer') == Open(front, current, buffer) + [Block(p.speaker, [p.text])];
    }
  }

  /** The nested `flush_buffer`: writes the buffered block, if it has a
      named speaker and a non-blank text, and empties the buffer. */
  method FlushBuffer(lines: seq<string>, current: Option<string>, buffer: seq<string>)
    returns (lines': seq<string>, buffer': seq<string>)
    ensures current.Some? ==> lines' == lines + BlockLines(Block(current.value, buffer))
    ensures current.None? ==> lines' == lines
    ensures buffer' == []
  {
    lines' := lines;
    if current.Some? && current.value != "" && buffer != [] {
      var msg := Strip(Join(" ", buffer));
      if msg != "" {
        lines' := lines + ["[" + current.value + "]", msg + "\n"];
      }
    }
    buffer' := [];
  }

  /** A part by the speaker of the last block is added to that block. */
  lemma StepSameSpeaker(front: seq<Block>, b: Block, p: Part)
    requires b.speaker == p.speaker
    ensures Step(front + [b], p) == front + [Block(b.speaker, b.texts + [p.text])]
  {
    assert (front + [b])[..|front|] == front;
  }

  /** A part by another speaker opens a new block. */
  lemma StepOtherSpeaker(bs: seq<Block>, p: Part)
    requires bs == [] || bs[|bs| - 1].speaker != p.speaker
    ensures Step(bs, p) == bs + [Block(p.speaker, [p.text])]
  {
  }

  lemma AllLinesSnoc(bs: seq<Block>, b: Block)
    ensures AllLines(bs + [b]) == AllLines(bs) + BlockLines(b)
  {
    assert (bs + [b])[..|bs|] == bs;
  }

  // ------------------------------------------------------------ properties

  /** The parts a block stands for. */
  function PartsOf(b: Block): (ps: seq<Part>)
  {
    seq(|b.texts|, k requires 0 <= k < |b.texts| => Part(b.speaker, b.texts[k]))
  }

  function Expand(bs: seq<Block>): seq<Part> {
    if bs == [] then [] else Expand(bs[..|bs| - 1]) + PartsOf(bs[|bs| - 1])
  }

  /** Merging loses nothing: expanding the blocks gives back the parts,
      speakers and texts, in order. */
  lemma {:induction false} BlocksExpand(ps: seq<Part>)
    ensures Expand(Blocks(ps)) == ps
    decreases |ps|
  {
    if ps != [] {
      var init, last := ps[..|ps| - 1], ps[|ps| - 1];
      assert Blocks(ps) == Step(Blocks(init), last);
      BlocksExpand(init);
      StepExpand(Blocks(init), last);
      assert init + [last] == ps;
    }
  }

  lemma StepExpand(bs: seq<Block>, p: Part)
    ensures Expand(Step(bs, p)) == Expand(bs) + [p]
  {
    if bs != [] && bs[|bs| - 1].speaker == p.speaker {
      var last := bs[|bs| - 1];
      var front := bs[..|bs| - 1];
      var merged := Block(p.speaker, last.texts + [p.text]);
      assert bs == front + [last];
      ExpandSnoc(front, last);
      ExpandSnoc(front, merged);
      assert PartsOf(merged) == PartsOf(last) + [p];
    } else {
      var started := Block(p.speaker, [p.text]);
      ExpandSnoc(bs, started);
      assert PartsOf(started) == [p];
    }
  }

  lemma ExpandSnoc(bs: seq<Block>, b: Block)
    ensures Expand(bs + [b]) == Expand(bs) + PartsOf(b)
  {
    assert (bs + [b])[..|bs|] == bs;
  }

  /** Python's `' '.join` of non-empty texts without surrounding whitespace
      has no surrounding whitespace either. */
  lemma {:induction false} JoinTrimmed(ws: seq<string>)
    requires forall k :: 0 <= k < |ws| ==> ws[k] != [] && Trimmed(ws[k])
    ensures ws != [] ==> Join(" ", ws) != [] && Trimmed(Join(" ", ws))
    ensures ws != [] ==> Join(" ", ws)[0] == ws[0][0]
  {
    if |ws| > 1 {
      JoinTrimmed(ws[1..]);
      var rest := Join(" ", ws[1..]);
      assert (ws[0] + " " + rest)[|ws[0] + " " + rest| - 1] == rest[|rest| - 1];
    }
  }

  lemma StripTrimmed(s: string)
    requires Trimmed(s)
    ensures Strip(s) == s
  {
    assert s[0..0 + |s|] == s;
    StripUnique(s, 0, s);
  }

  /** The texts of a block built from the caption extractor's parts: at
      least one, each non-empty with no surrounding whitespace. The speaker
      may still be empty, as a label such as "(Guest)" cleans to "". */
  ghost predicate TrimmedTexts(b: Block) {
    b.texts != [] && forall m :: 0 <= m < |b.texts| ==> b.texts[m] != [] && Trimmed(b.texts[m])
  }

  /** Such a block with a named speaker. */
  ghost predicate Presentable(b: Block) {
    b.speaker != "" && TrimmedTexts(b)
  }

  /** Every block written in full: its speaker tag, then its texts joined by
      single spaces. */
  function Shown(bs: seq<Block>): seq<string> {
    if bs == [] then []
    else
      var b := bs[|bs| - 1];
      Shown(bs[..|bs| - 1]) + ["[" + b.speaker + "]", Join(" ", b.texts) + "\n"]
  }

  /** Presentable blocks are all written, each with exactly its texts joined
      by spaces: no block is dropped and stripping changes nothing. */
  lemma {:induction false} AllBlocksShown(bs: seq<Block>)
    requires forall k :: 0 <= k < |bs| ==> Presentable(bs[k])
    ensures AllLines(bs) == Shown(bs)
    decreases |bs|
  {
    if bs != [] {
      var b := bs[|bs| - 1];
      AllBlocksShown(bs[..|bs| - 1]);
      JoinTrimmed(b.texts);
      StripTrimmed(Join(" ", b.texts));
    }
  }

  /** The blocks with a named speaker, in order. */
  function Named(bs: seq<Block>): (r: seq<Block>)
    ensures |r| <= |bs|
  {
    if bs == [] then []
    else
      var b := bs[|bs| - 1];
      Named(bs[..|bs| - 1]) + if b.speaker != "" then [b] else []
  }

  /** Blocks with extractor-made texts are written exactly when their
      speaker is named, each as its texts joined by single spaces; blocks
      without a speaker leave no trace. */
  lemma {:induction false} NamedBlocksShown(bs: seq<Block>)
    requires forall k :: 0 <= k < |bs| ==> TrimmedTexts(bs[k])
    ensures AllLines(bs) == Shown(Named(bs))
    decreases |bs|
  {
    if bs != [] {
      var init, b := bs[..|bs| - 1], bs[|bs| - 1];
      assert forall k :: 0 <= k < |init| ==> init[k] == bs[k];
      NamedBlocksShown(init);
      assert AllLines(bs) == AllLines(init) + BlockLines(b);
      if b.speaker != "" {
        NamedBlockLines(b);
        ShownSnoc(Named(init), b);
      } else {
        assert BlockLines(b) == [];
        assert AllLines(init) + [] == AllLines(init);
        assert Named(bs) == Named(init) + [] == Named(init);
      }
    }
  }

  lemma NamedBlockLines(b: Block)
    requires TrimmedTexts(b) && b.speaker != ""
    ensures BlockLines(b) == ["[" + b.speaker + "]", Join(" ", b.texts) + "\n"]
  {
    JoinTrimmed(b.texts);
    StripTrimmed(Join(" ", b.texts));
  }

  lemma ShownSnoc(bs: seq<Block>, b: Block)
    ensures Shown(bs + [b]) == Shown(bs) + ["[" + b.speaker + "]", Join(" ", b.texts) + "\n"]
  {
    assert (bs + [b])[..|bs|] == bs;
  }

  /** Merging parts with non-empty trimmed texts gives blocks with
      non-empty trimmed texts. */
  lemma StepKeepsTrimmedTexts(bs: seq<Block>, p: Part)
    requires forall k :: 0 <= k < |bs| ==> TrimmedTexts(bs[k])
    requires p.text != [] && Trimmed(p.text)
    ensures forall k :: 0 <= k < |Step(bs, p)| ==> TrimmedTexts(Step(bs, p)[k])
  {
    var r := Step(bs, p);
    if bs != [] && bs[|bs| - 1].speaker == p.speaker {
      var ts := bs[|bs| - 1].texts + [p.text];
      assert forall m :: 0 <= m < |ts| - 1 ==> ts[m] == bs[|bs| - 1].texts[m];
      assert forall k :: 0 <= k < |bs| - 1 ==> r[k] == bs[k];
    } else {
      assert forall k :: 0 <= k < |bs| ==> r[k] == bs[k];
    }
  }

  lemma {:induction false} WellFormedBlocks(ps: seq<Part>)
    requires forall k :: 0 <= k < |ps| ==> WellFormedPart(ps[k])
    ensures forall k :: 0 <= k < |Blocks(ps)| ==> TrimmedTexts(Blocks(ps)[k])
    decreases |ps|
  {
    if ps != [] {
      var init, p := ps[..|ps| - 1], ps[|ps| - 1];
      assert forall k :: 0 <= k < |init| ==> init[k] == ps[k];
      WellFormedBlocks(init);
      assert WellFormedPart(p);
      CanonicalTrimmed(p.text);
      StepKeepsTrimmedTexts(Blocks(init), p);
    }
  }

  /** Text in the form `' '.join(s.split())` gives has no surrounding
      whitespace. */
  lemma CanonicalTrimmed(s: string)
    requires Canonical(s)
    ensures Trimmed(s)
  {
    if s != [] {
      assert !IsSpace(s[0]);
      assert !IsSpace(s[|s| - 1]);
    }
  }

  /** The output for any list of extracted parts: the runs of one speaker,
      with the unnamed ones dropped, each written as its tag line and its
      texts joined by single spaces, all lines joined by newlines. */
  lemma RenderedWellFormed(ps: seq<Part>)
    requires forall k :: 0 <= k < |ps| ==> WellFormedPart(ps[k])
    ensures Rendered(ps) == Join("\n", Shown(Named(Blocks(ps))))
  {
    WellFormedBlocks(ps);
    NamedBlocksShown(Blocks(ps));
  }

  /** Two parts by one speaker followed by a part by another give two
      blocks. */
  lemma TwoThenOne(p1: Part, p2: Part, p3: Part)
    requires p1.speaker == p2.speaker != p3.speaker
    ensures Blocks([p1, p2, p3])
         == [Block(p1.speaker, [p1.text, p2.text]), Block(p3.speaker, [p3.text])]
  {
    var b1 := Block(p1.speaker, [p1.text]);
    var b2 := Block(p1.speaker, [p1.text, p2.text]);
    BlocksSnoc([], p1);
    assert [] + [p1] == [p1];
    StepOtherSpeaker([], p1);
    BlocksSnoc([p1], p2);
    assert [p1] + [p2] == [p1, p2];
    StepSameSpeaker([], b1, p2);
    assert [] + [b1] == [b1];
    assert [p1.text] + [p2.text] == [p1.text, p2.text];
    BlocksSnoc([p1, p2], p3);
    assert [p1, p2] + [p3] == [p1, p2, p3];
    StepOtherSpeaker([b2], p3);
  }

  lemma ExampleBlocks()
    ensures Blocks([Part("A", "hi"), Part("A", "there"), Part("B", "yo")])
         == [Block("A", ["hi", "there"]), Block("B", ["yo"])]
  {
    TwoThenOne(Part("A", "hi"), Part("A", "there"), Part("B", "yo"));
  }

  /** Two presentable blocks are written as four lines. */
  lemma TwoBlocksShown(b1: Block, b2: Block)
    requires Presentable(b1) && Presentable(b2)
    ensures AllLines([b1, b2])
         == ["[" + b1.speaker + "]", Join(" ", b1.texts) + "\n", "[" + b2.speaker + "]", Join(" ", b2.texts) + "\n"]
  {
    AllBlocksShown([b1, b2]);
    assert [b1, b2][..1] == [b1];
    assert [b1][..0] == [];
    assert Shown([b1]) == ["[" + b1.speaker + "]", Join(" ", b1.texts) + "\n"];
  }

  lemma JoinFour(sep: string, a: string, b: string, c: string, d: string)
    ensures Join(sep, [a, b, c, d]) == a + sep + (b + sep + (c + sep + d))
  {
    JoinCons(sep, c, [d]);
    assert [c, d] == [c] + [d];
    JoinCons(sep, b, [c, d]);
    assert [b, c, d] == [b] + [c, d];
    JoinCons(sep, a, [b, c, d]);
    assert [a, b, c, d] == [a] + [b, c, d];
  }

  lemma ExampleLines()
    ensures AllLines([Block("A", ["hi", "there"]), Block("B", ["yo"])])
         == ["[A]", "hi there\n", "[B]", "yo\n"]
  {
    ExamplePresentable();
    TwoBlocksShown(Block("A", ["hi", "there"]), Block("B", ["yo"]));
    ExampleJoin();
    ExampleStrings();
  }

  lemma ExamplePresentable()
    ensures Presentable(Block("A", ["hi", "there"])) && Presentable(Block("B", ["yo"]))
  {
  }

  lemma ExampleJoin()
    ensures Join(" ", ["hi", "there"]) == "hi" + " " + "there" && Join(" ", ["yo"]) == "yo"
  {
    JoinCons(" ", "hi", ["there"]);
    assert ["hi", "there"] == ["hi"] + ["there"];
  }

  lemma ExampleStrings()
    ensures "[" + "A" + "]" == "[A]" && "[" + "B" + "]" == "[B]"
    ensures "hi" + " " + "there" == "hi there" && "hi there" + "\n" == "hi there\n"
    ensures "yo" + "\n" == "yo\n"
  {
  }

  /** Consecutive parts `("A","hi")`, `("A","there")` and `("B","yo")` are
      written as "[A]\nhi there\n\n[B]\nyo\n". */
  lemma FormatExample()
    ensures Rendered([Part("A", "hi"), Part("A", "there"), Part("B", "yo")])
         == "[A]\nhi there\n\n[B]\nyo\n"
  {
    ExampleBlocks();
    ExampleLines();
    JoinFour("\n", "[A]", "hi there\n", "[B]", "yo\n");
    ExampleText();
  }

  lemma ExampleText()
    ensures "[A]" + "\n" + ("hi there\n" + "\n" + ("[B]" + "\n" + "yo\n"))
         == "[A]\nhi there\n\n[B]\nyo\n"
  {
  }

  /** No parts, no text. */
  lemma FormatEmpty()
    ensures Rendered([]) == ""
  {
  }
}
