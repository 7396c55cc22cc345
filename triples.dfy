/** The output format of the Zoom and Webex converters (`format_transcript`,
    written identically in both scripts): every (speaker, timestamp,
    dialogue) triple becomes a header line and a dialogue line. */
module Triples {
  import opened Text

  /** One transcript segment: who spoke, when, and what was said. */
  datatype Triple = Triple(speaker: string, timestamp: string, dialogue: string)

  /** `f"[{speaker}] {timestamp}"`. */
  function HeaderLine(t: Triple): string {
    "[" + t.speaker + "] " + t.timestamp
  }

  /** `f"{dialogue}\n"`: the dialogue and an empty line after it. */
  function BodyLine(t: Triple): string {
    t.dialogue + "\n"
  }

  /** The output lines, two per triple. */
  function TripleLines(ts: seq<Triple>): (ls: seq<string>)
    ensures |ls| == 2 * |ts|
  {
    if ts == [] then []
    else
      var t := ts[|ts| - 1];
      TripleLines(ts[..|ts| - 1]) + [HeaderLine(t), BodyLine(t)]
  }

  /** The output text: the lines joined by newlines. */
  function Formatted(ts: seq<Triple>): string {
    Join("\n", TripleLines(ts))
  }

  /** `format_transcript(transcript_parts)`. */
  method FormatTranscript(parts: seq<Triple>) returns (out: string)
    ensures out == Formatted(parts)
  {
    var lines: seq<string> := [];
    for i := 0 to |parts|
      invariant lines == TripleLines(parts[..i])
    {
      var t := parts[i];
      lines := lines + ["[" + t.speaker + "] " + t.timestamp];
      lines := lines + [t.dialogue + "\n"];
      assert parts[..i + 1][..i] == parts[..i];
    }
    assert parts[..|parts|] == parts;
    out := Join("\n", lines);
  }

  // ------------------------------------------------------------ properties

  /** Line `2k` is the header of triple `k`, line `2k + 1` its dialogue. */
  lemma {:induction false} TripleLinesAt(ts: seq<Triple>, k: nat)
    requires k < |ts|
    ensures TripleLines(ts)[2 * k] == HeaderLine(ts[k])
    ensures TripleLines(ts)[2 * k + 1] == BodyLine(ts[k])
    decreases |ts|
  {
    var init := ts[..|ts| - 1];
    if k < |init| {
      TripleLinesAt(init, k);
      assert init[k] == ts[k];
    }
  }

  lemma {:induction false} TripleLinesAppend(xs: seq<Triple>, ys: seq<Triple>)
    ensures TripleLines(xs + ys) == TripleLines(xs) + TripleLines(ys)
    decreases |ys|
  {
    if ys == [] {
      assert xs + ys == xs;
    } else {
      var init := ys[..|ys| - 1];
      TripleLinesAppend(xs, init);
      assert (xs + ys)[..|xs + ys| - 1] == xs + init;
    }
  }

  /** The text is empty exactly when there are no triples. */
  lemma FormattedEmptyIff(ts: seq<Triple>)
    ensures Formatted(ts) == "" <==> ts == []
  {
    if ts != [] {
      var ls := TripleLines(ts);
      TripleLinesAt(ts, 0);
      assert ls == [ls[0]] + ls[1..];
      JoinCons("\n", ls[0], ls[1..]);
      assert Formatted(ts)[0] == '[';
    }
  }

  /** A single triple is written as its header, a newline and its dialogue
      line. */
  lemma FormattedOne(t: Triple)
    ensures Formatted([t]) == "[" + t.speaker + "] " + t.timestamp + "\n" + t.dialogue + "\n"
  {
    assert [t][..0] == [];
    assert TripleLines([t]) == [HeaderLine(t)] + [BodyLine(t)];
    JoinCons("\n", HeaderLine(t), [BodyLine(t)]);
  }

  /** Formatting distributes over concatenation: the two texts are joined
      by one newline. */
  lemma FormattedAppend(xs: seq<Triple>, ys: seq<Triple>)
    requires xs != [] && ys != []
    ensures Formatted(xs + ys) == Formatted(xs) + "\n" + Formatted(ys)
  {
    TripleLinesAppend(xs, ys);
    JoinAppend("\n", TripleLines(xs), TripleLines(ys));
  }
}
