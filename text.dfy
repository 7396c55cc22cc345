/** The string operations the transcript converters rely on: Python's
    `str.isspace`, `str.strip`, `str.split()` with no separator, `sep.join`
    and `str.count`, written over `seq<char>`. */
module Text {

  /** The characters for which Python's `str.isspace()` holds; `str.split()`,
      `str.strip()` and the regular-expression class `\s` all use this set. */
  predicate IsSpace(c: char) {
    var n := c as int;
    (9 <= n <= 13) || (28 <= n <= 32) || n == 0x85 || n == 0xA0 || n == 0x1680
    || (0x2000 <= n <= 0x200A) || n == 0x2028 || n == 0x2029 || n == 0x202F
    || n == 0x205F || n == 0x3000
  }

  predicate AllSpace(s: string) {
    forall i :: 0 <= i < |s| ==> IsSpace(s[i])
  }

  predicate NoSpace(s: string) {
    forall i :: 0 <= i < |s| ==> !IsSpace(s[i])
  }

  /** Neither end of `s` is a whitespace character. */
  predicate Trimmed(s: string) {
    s != [] ==> !IsSpace(s[0]) && !IsSpace(s[|s| - 1])
  }

  /** `s` is in the form `' '.join(s.split())` produces: its only whitespace
      characters are single ' ' separators strictly between two non-space
      characters. */
  predicate Canonical(s: string) {
    forall i :: 0 <= i < |s| && IsSpace(s[i]) ==>
      s[i] == ' ' && 0 < i < |s| - 1 && !IsSpace(s[i + 1])
  }

  // ---------------------------------------------------------------- strip

  lemma AllSpaceAppend(a: string, b: string)
    requires AllSpace(a) && AllSpace(b)
    ensures AllSpace(a + b)
  {
    forall k | |a| <= k < |a| + |b| ensures (a + b)[k] == b[k - |a|] {
    }
  }

  function TrimLeft(s: string): (r: string)
    ensures |r| <= |s| && r == s[|s| - |r|..]
    ensures AllSpace(s[..|s| - |r|])
    ensures r != [] ==> !IsSpace(r[0])
  {
    if s != [] && IsSpace(s[0]) then
      var r := TrimLeft(s[1..]);
      var n := |s| - |r|;
      assert s[..n][1..] == s[1..][..n - 1];
      AllSpaceCons(s[..n]);
      assert s[1..][n - 1..] == s[n..];
      r
    else s
  }

  function TrimRight(s: string): (r: string)
    ensures |r| <= |s| && r == s[..|r|]
    ensures AllSpace(s[|r|..])
    ensures r != [] ==> !IsSpace(r[|r| - 1])
  {
    if s != [] && IsSpace(s[|s| - 1]) then
      var init := s[..|s| - 1];
      var r := TrimRight(init);
      assert s[|r|..] == init[|r|..] + [s[|s| - 1]];
      AllSpaceAppend(init[|r|..], [s[|s| - 1]]);
      assert init[..|r|] == s[..|r|];
      r
    else s
  }

  lemma {:induction false} TrimLeftEmpty(s: string)
    ensures TrimLeft(s) == [] <==> AllSpace(s)
    decreases |s|
  {
    if s != [] && IsSpace(s[0]) {
      TrimLeftEmpty(s[1..]);
      AllSpaceCons(s);
    }
  }

  lemma AllSpaceCons(s: string)
    requires s != []
    ensures AllSpace(s) <==> IsSpace(s[0]) && AllSpace(s[1..])
  {
    if IsSpace(s[0]) && AllSpace(s[1..]) {
      forall i | 0 < i < |s| ensures IsSpace(s[i]) {
        assert s[i] == s[1..][i - 1];
      }
    }
  }

  /** `r` is `s` with the all-space prefix `s[..i]` and an all-space suffix removed. */
  ghost predicate StripsTo(s: string, i: int, r: string) {
    0 <= i && i + |r| <= |s| && s[i..i + |r|] == r && AllSpace(s[..i]) && AllSpace(s[i + |r|..])
  }

  /** Python's `s.strip()`. */
  function Strip(s: string): (r: string)
    ensures Trimmed(r)
  {
    TrimRight(TrimLeft(s))
  }

  lemma {:induction false} TrimLeftSkips(s: string, i: nat)
    requires i <= |s| && AllSpace(s[..i])
    requires i < |s| ==> !IsSpace(s[i])
    ensures TrimLeft(s) == s[i..]
    decreases i
  {
    if i > 0 {
      assert s[..i][0] == s[0];
      assert s[1..][..i - 1] == s[..i][1..];
      TrimLeftSkips(s[1..], i - 1);
      assert s[1..][i - 1..] == s[i..];
    }
  }

  lemma {:induction false} TrimRightSkips(s: string, e: nat)
    requires e <= |s| && AllSpace(s[e..])
    requires e > 0 ==> !IsSpace(s[e - 1])
    ensures TrimRight(s) == s[..e]
    decreases |s| - e
  {
    if e < |s| {
      assert s[e..][|s| - 1 - e] == s[|s| - 1];
      var s' := s[..|s| - 1];
      assert s'[e..] == s[e..][..|s| - 1 - e];
      TrimRightSkips(s', e);
      assert s'[..e] == s[..e];
    } else {
      assert s[..e] == s;
    }
  }

  /** Removing whitespace from both ends can only be done one way. */
  lemma StripUnique(s: string, i: int, r: string)
    requires StripsTo(s, i, r) && Trimmed(r)
    ensures r == Strip(s)
  {
    if r == [] {
      assert s == s[..i] + s[i..];
      assert AllSpace(s[..|s|]) by { assert s[..|s|] == s; }
      TrimLeftSkips(s, |s|);
    } else {
      assert s[i] == r[0];
      TrimLeftSkips(s, i);
      var t := s[i..];
      assert t[|r|..] == s[i + |r|..];
      assert t[|r| - 1] == r[|r| - 1];
      TrimRightSkips(t, |r|);
      assert t[..|r|] == r;
    }
  }

  lemma StripOfAllSpace(s: string)
    ensures AllSpace(s) <==> Strip(s) == []
  {
    if AllSpace(s) {
      TrimLeftEmpty(s);
    }
    if Strip(s) == [] {
      StripEmpty(s);
    }
  }

  lemma StripEmpty(s: string)
    requires Strip(s) == []
    ensures AllSpace(s)
  {
    TrimRightEmpty(TrimLeft(s));
    TrimLeftAllSpace(s);
  }

  lemma TrimRightEmpty(t: string)
    requires TrimRight(t) == []
    ensures AllSpace(t)
  {
    assert t[0..] == t;
  }

  lemma TrimLeftAllSpace(s: string)
    requires AllSpace(TrimLeft(s))
    ensures AllSpace(s)
  {
    var t := TrimLeft(s);
    var n := |s| - |t|;
    assert s == s[..n] + t;
    AllSpaceAppend(s[..n], t);
  }

  // ---------------------------------------------------------------- join

  lemma HeadTail<T>(s: seq<T>)
    requires s != []
    ensures [s[0]] + s[1..] == s
  {
  }

  /** Python's `sep.join(ws)`. */
  function Join(sep: string, ws: seq<string>): string
  {
    if ws == [] then []
    else if |ws| == 1 then ws[0]
    else ws[0] + sep + Join(sep, ws[1..])
  }

  lemma JoinOne(sep: string, w: string)
    ensures Join(sep, [w]) == w
  {
  }

  lemma JoinCons(sep: string, w: string, ws: seq<string>)
    requires ws != []
    ensures Join(sep, [w] + ws) == w + sep + Join(sep, ws)
  {
    assert ([w] + ws)[1..] == ws;
  }

  /** Joining two non-empty lists puts one separator between the joins. */
  lemma {:induction false} JoinAppend(sep: string, xs: seq<string>, ys: seq<string>)
    requires xs != [] && ys != []
    ensures Join(sep, xs + ys) == Join(sep, xs) + sep + Join(sep, ys)
  {
    if |xs| == 1 {
      assert xs == [xs[0]];
      JoinCons(sep, xs[0], ys);
    } else {
      var w, rest := xs[0], xs[1..];
      assert xs == [w] + rest;
      assert xs + ys == [w] + (rest + ys);
      JoinCons(sep, w, rest + ys);
      JoinAppend(sep, rest, ys);
      JoinCons(sep, w, rest);
      var a, b, c := Join(sep, rest), Join(sep, ys), w + sep;
      assert c + (a + sep + b) == (c + a) + sep + b;
    }
  }

  lemma {:induction false} JoinSnoc(sep: string, ws: seq<string>, w: string)
    requires ws != []
    ensures Join(sep, ws + [w]) == Join(sep, ws) + sep + w
  {
    JoinAppend(sep, ws, [w]);
  }

  // ---------------------------------------------------------------- split

  /** The number of non-space characters that `s` starts with. */
  function WordLen(s: string): (n: nat)
    ensures n <= |s| && NoSpace(s[..n])
    ensures n < |s| ==> IsSpace(s[n])
  {
    if s == [] || IsSpace(s[0]) then 0
    else
      var n := 1 + WordLen(s[1..]);
      assert s[..n] == [s[0]] + s[1..][..n - 1];
      n
  }

  /** Python's `s.split()`: the maximal runs of non-space characters, in order. */
  function Split(s: string): (ws: seq<string>)
    decreases |s|
  {
    var t := TrimLeft(s);
    if t == [] then []
    else
      var n := WordLen(t);
      [t[..n]] + Split(t[n..])
  }

  /** `' '.join(s.split())`: the whitespace normalisation of the converters. */
  function Normalize(s: string): string
  {
    Join(" ", Split(s))
  }

  /** Words are the non-empty, space-free strings. */
  ghost predicate AreWords(ws: seq<string>) {
    forall k :: 0 <= k < |ws| ==> ws[k] != [] && NoSpace(ws[k])
  }

  lemma WordsCons(w: string, ws: seq<string>)
    requires w != [] && NoSpace(w) && AreWords(ws)
    ensures AreWords([w] + ws)
  {
    forall k | 0 < k < |ws| + 1 ensures ([w] + ws)[k] == ws[k - 1] {
    }
  }

  /** Splitting gives words. */
  lemma {:induction false} SplitWords(s: string)
    ensures AreWords(Split(s))
    decreases |s|
  {
    var t := TrimLeft(s);
    if t != [] {
      var n := WordLen(t);
      assert n > 0;
      SplitWords(t[n..]);
      WordsCons(t[..n], Split(t[n..]));
    }
  }

  lemma {:induction false} WordLenOfWord(w: string, tail: string)
    requires NoSpace(w)
    requires tail == [] || IsSpace(tail[0])
    ensures WordLen(w + tail) == |w|
    decreases |w|
  {
    if w != [] {
      assert (w + tail)[0] == w[0];
      assert (w + tail)[1..] == w[1..] + tail;
      WordLenOfWord(w[1..], tail);
    } else {
      assert w + tail == tail;
    }
  }

  /** A word followed by whitespace (or by nothing) is split off first. */
  lemma SplitWordThen(w: string, tail: string)
    requires w != [] && NoSpace(w)
    requires tail == [] || IsSpace(tail[0])
    ensures Split(w + tail) == [w] + Split(tail)
  {
    var s := w + tail;
    assert s[0] == w[0];
    TrimLeftSkips(s, 0);
    WordLenOfWord(w, tail);
    assert s[..|w|] == w;
    assert s[|w|..] == tail;
  }

  /** A leading whitespace character does not change the split. */
  lemma SplitSpaceCons(c: char, x: string)
    requires IsSpace(c)
    ensures Split([c] + x) == Split(x)
  {
    assert ([c] + x)[1..] == x;
  }

  lemma SplitAllSpace(s: string)
    requires AllSpace(s)
    ensures Split(s) == []
  {
    assert AllSpace(s[..|s|]) by { assert s[..|s|] == s; }
    TrimLeftSkips(s, |s|);
  }

  /** A whitespace character is a word break: what lies on either side of it
      splits independently. */
  lemma {:induction false} SplitAtSpace(a: string, c: char, b: string)
    requires IsSpace(c)
    ensures Split(a + [c] + b) == Split(a) + Split(b)
    decreases |a|
  {
    if a == [] {
      assert a + [c] + b == [c] + b;
      SplitSpaceCons(c, b);
      assert Split(a) == [];
    } else if IsSpace(a[0]) {
      SplitAtSpace(a[1..], c, b);
      SplitAtSpaceLead(a, c, b);
    } else {
      var n := WordLen(a);
      if n == |a| {
        SplitAtSpaceWord(a, c, b);
      } else {
        SplitAtSpace(a[n..], c, b);
        SplitAtSpaceNext(a, n, c, b);
      }
    }
  }

  lemma SplitAtSpaceLead(a: string, c: char, b: string)
    requires a != [] && IsSpace(a[0])
    requires Split(a[1..] + [c] + b) == Split(a[1..]) + Split(b)
    ensures Split(a + [c] + b) == Split(a) + Split(b)
  {
    Regroup(a, 1, c, b);
    HeadTail(a);
    SplitSpaceCons(a[0], a[1..] + [c] + b);
    SplitSpaceCons(a[0], a[1..]);
  }

  lemma SplitAtSpaceWord(a: string, c: char, b: string)
    requires IsSpace(c) && a != [] && NoSpace(a)
    ensures Split(a + [c] + b) == Split(a) + Split(b)
  {
    Regroup(a, |a|, c, b);
    SplitWordThen(a, [c] + b);
    SplitSpaceCons(c, b);
    SplitWordThen(a, []);
    assert Split(a) == [a] by { assert Split([]) == []; }
  }

  lemma SplitAtSpaceNext(a: string, n: nat, c: char, b: string)
    requires 0 < n < |a| && NoSpace(a[..n]) && IsSpace(a[n])
    requires Split(a[n..] + [c] + b) == Split(a[n..]) + Split(b)
    ensures Split(a + [c] + b) == Split(a) + Split(b)
  {
    var w, rest := a[..n], a[n..];
    Regroup(a, n, c, b);
    assert (rest + [c] + b)[0] == rest[0];
    SplitWordThen(w, rest);
    assert Split(a) == [w] + Split(rest);
    SplitWordThen(w, rest + [c] + b);
    assert Split(a + [c] + b) == [w] + (Split(rest) + Split(b));
    Assoc([w], Split(rest), Split(b));
  }

  lemma Assoc<T>(x: seq<T>, y: seq<T>, z: seq<T>)
    ensures x + (y + z) == x + y + z
  {
  }

  /** The sequence equalities the split lemmas need, proved away from `Split`. */
  lemma Regroup<T>(a: seq<T>, n: nat, c: T, b: seq<T>)
    requires n <= |a|
    ensures a + [c] + b == a[..n] + (a[n..] + [c] + b)
    ensures a[..n] + a[n..] == a && a + [] == a && a[..|a|] == a && a[|a|..] == []
    ensures n == 1 ==> a[..n] == [a[0]]
    ensures n == |a| ==> a + [c] + b == a + ([c] + b) && a[n..] + [c] + b == [c] + b
  {
  }

  /** A word, one space and more text: the word is split off, the space dropped. */
  lemma SplitWordSpace(w: string, rest: string)
    requires w != [] && NoSpace(w)
    ensures Split(w + " " + rest) == [w] + Split(rest)
  {
    assert w + " " + rest == w + ([' '] + rest);
    SplitWordThen(w, [' '] + rest);
    SplitSpaceCons(' ', rest);
  }

  /** Splitting the single-space join of words gives the words back. */
  lemma {:induction false} SplitJoin(ws: seq<string>)
    requires AreWords(ws)
    ensures Split(Join(" ", ws)) == ws
  {
    if ws == [] {
      SplitAllSpace([]);
    } else if |ws| == 1 {
      SplitWordThen(ws[0], "");
      assert ws[0] + "" == ws[0];
    } else {
      var rest := ws[1..];
      assert AreWords(rest) by {
        forall k | 0 <= k < |rest| ensures rest[k] == ws[k + 1] {
        }
      }
      SplitJoin(rest);
      SplitWordSpace(ws[0], Join(" ", rest));
      HeadTail(ws);
    }
  }

  lemma {:induction false} JoinLength(ws: seq<string>)
    requires AreWords(ws) && ws != []
    ensures |Join(" ", ws)| >= |ws[0]| > 0
    ensures Join(" ", ws)[0] == ws[0][0]
  {
  }

  /** The single-space join of words is canonical. */
  lemma {:induction false} JoinCanonical(ws: seq<string>)
    requires AreWords(ws)
    ensures Canonical(Join(" ", ws))
  {
    if |ws| > 1 {
      var w, rest := ws[0], Join(" ", ws[1..]);
      JoinCanonical(ws[1..]);
      JoinLength(ws[1..]);
      var s := w + " " + rest;
      assert Join(" ", ws) == s;
      assert forall i :: 0 <= i < |w| ==> s[i] == w[i];
      forall i | 0 <= i < |s| && IsSpace(s[i])
        ensures s[i] == ' ' && 0 < i < |s| - 1 && !IsSpace(s[i + 1])
      {
        if i == |w| {
          assert s[i + 1] == rest[0];
        } else {
          assert s[i] == rest[i - |w| - 1];
          if i + 1 < |s| { assert s[i + 1] == rest[i - |w|]; }
        }
      }
    }
  }

  /** A canonical string is its own normalisation. */
  lemma {:induction false} CanonicalFixed(s: string)
    requires Canonical(s)
    ensures Normalize(s) == s
    decreases |s|
  {
    if s == [] {
      SplitAllSpace(s);
    } else {
      var n := WordLen(s);
      assert n > 0 by { assert !IsSpace(s[0]); }
      var w := s[..n];
      if n == |s| {
        SplitWordThen(s, "");
        SplitAllSpace("");
        assert s + "" == s;
      } else {
        var rest := s[n + 1..];
        assert s[n] == ' ' && !IsSpace(s[n + 1]);
        assert Canonical(rest) by {
          forall i | 0 <= i < |rest| && IsSpace(rest[i])
            ensures rest[i] == ' ' && 0 < i < |rest| - 1 && !IsSpace(rest[i + 1])
          {
            assert rest[i] == s[n + 1 + i];
            assert i + 1 < |rest| ==> rest[i + 1] == s[n + 2 + i];
          }
        }
        assert s == w + " " + rest;
        CanonicalFixed(rest);
        assert Normalize(rest) != [];
        calc {
          Normalize(s);
          Join(" ", Split(w + " " + rest));
          { SplitWordSpace(w, rest); }
          Join(" ", [w] + Split(rest));
          { JoinCons(" ", w, Split(rest)); }
          w + " " + Normalize(rest);
          s;
        }
      }
    }
  }

  lemma NormalizeCanonical(s: string)
    ensures Canonical(Normalize(s))
  {
    SplitWords(s);
    JoinCanonical(Split(s));
  }

  /** Normalisation has the three properties that pin it down: its result is
      canonical, has the same words as the input, and is the only canonical
      string with those words. */
  lemma NormalizeSpec(s: string)
    ensures Canonical(Normalize(s))
    ensures Split(Normalize(s)) == Split(s)
    ensures forall c :: Canonical(c) && Split(c) == Split(s) ==> c == Normalize(s)
  {
    SplitWords(s);
    JoinCanonical(Split(s));
    SplitJoin(Split(s));
    forall c | Canonical(c) && Split(c) == Split(s) ensures c == Normalize(s) {
      CanonicalFixed(c);
    }
  }

  /** The normalisation is empty exactly when the input is all whitespace. */
  lemma NormalizeEmpty(s: string)
    ensures Normalize(s) == [] <==> AllSpace(s)
  {
    if AllSpace(s) {
      SplitAllSpace(s);
    } else {
      TrimLeftEmpty(s);
      SplitWords(s);
      JoinLength(Split(s));
    }
  }

  /** The non-space characters of `s`, in order. */
  function NonSpaceChars(s: string): (r: string)
    ensures NoSpace(r)
  {
    if s == [] then []
    else if IsSpace(s[0]) then NonSpaceChars(s[1..])
    else [s[0]] + NonSpaceChars(s[1..])
  }

  lemma {:induction false} NonSpaceCharsAppend(a: string, b: string)
    ensures NonSpaceChars(a + b) == NonSpaceChars(a) + NonSpaceChars(b)
    decreases |a|
  {
    if a == [] {
      assert a + b == b;
    } else {
      assert (a + b)[0] == a[0];
      assert (a + b)[1..] == a[1..] + b;
      NonSpaceCharsAppend(a[1..], b);
    }
  }

  lemma {:induction false} NonSpaceCharsOf(s: string)
    ensures AllSpace(s) ==> NonSpaceChars(s) == []
    ensures NoSpace(s) ==> NonSpaceChars(s) == s
    decreases |s|
  {
    if s != [] {
      NonSpaceCharsOf(s[1..]);
      assert s == [s[0]] + s[1..];
    }
  }

  function Concat(ws: seq<string>): string {
    if ws == [] then [] else ws[0] + Concat(ws[1..])
  }

  lemma NonSpaceCharsTrimLeft(s: string)
    ensures NonSpaceChars(s) == NonSpaceChars(TrimLeft(s))
  {
    var t := TrimLeft(s);
    var lead := s[..|s| - |t|];
    assert s == lead + t;
    NonSpaceCharsAppend(lead, t);
    NonSpaceCharsOf(lead);
  }

  lemma NonSpaceCharsWord(t: string)
    ensures NonSpaceChars(t) == t[..WordLen(t)] + NonSpaceChars(t[WordLen(t)..])
  {
    var n := WordLen(t);
    assert t == t[..n] + t[n..];
    NonSpaceCharsAppend(t[..n], t[n..]);
    NonSpaceCharsOf(t[..n]);
  }

  lemma ConcatCons(w: string, ws: seq<string>)
    ensures Concat([w] + ws) == w + Concat(ws)
  {
    assert ([w] + ws)[1..] == ws;
  }

  /** Splitting loses no non-space character and adds none. */
  lemma {:induction false} SplitKeepsContent(s: string)
    ensures Concat(Split(s)) == NonSpaceChars(s)
    decreases |s|
  {
    var t := TrimLeft(s);
    NonSpaceCharsTrimLeft(s);
    if t != [] {
      var n := WordLen(t);
      NonSpaceCharsWord(t);
      SplitKeepsContent(t[n..]);
      ConcatCons(t[..n], Split(t[n..]));
    }
  }

  /** Leading whitespace does not change the split. */
  lemma SplitSpaces(sp: string, x: string)
    requires AllSpace(sp) && (x == [] || !IsSpace(x[0]))
    ensures Split(sp + x) == Split(x)
  {
    var s := sp + x;
    assert s[..|sp|] == sp && s[|sp|..] == x;
    TrimLeftSkips(s, |sp|);
    TrimLeftSkips(x, 0);
  }

  lemma SplitExampleWorld()
    ensures Split("world  ") == ["world"]
  {
    assert "world  " == "world" + "  ";
    assert NoSpace("world") && AllSpace("  ");
    SplitWordThen("world", "  ");
    SplitAllSpace("  ");
  }

  lemma SplitExampleTail()
    ensures Split("   world  ") == ["world"]
  {
    assert "   world  " == "   " + "world  ";
    assert AllSpace("   ");
    SplitSpaces("   ", "world  ");
    SplitExampleWorld();
  }

  lemma SplitExample()
    ensures Split("Hello   world  ") == ["Hello", "world"]
  {
    assert "Hello   world  " == "Hello" + "   world  ";
    assert NoSpace("Hello");
    SplitWordThen("Hello", "   world  ");
    SplitExampleTail();
  }

  lemma NormalizeExample()
    ensures Normalize("Hello   world  ") == "Hello world"
  {
    SplitExample();
    JoinExample();
  }

  lemma JoinExample()
    ensures Join(" ", ["Hello", "world"]) == "Hello world"
  {
    assert ["Hello", "world"] == ["Hello"] + ["world"];
    JoinCons(" ", "Hello", ["world"]);
    JoinOne(" ", "world");
    HelloWorld();
  }

  lemma HelloWorld()
    ensures "Hello" + " " + "world" == "Hello world"
  {
  }

  // ---------------------------------------------------------------- count

  /** Python's `s.count(c)` for a one-character needle. */
  function Count(s: string, c: char): (n: nat)
    ensures n <= |s|
    ensures n == 0 <==> c !in s
  {
    if s == [] then 0
    else (if s[0] == c then 1 else 0) + Count(s[1..], c)
  }

  lemma {:induction false} CountAppend(a: string, b: string, c: char)
    ensures Count(a + b, c) == Count(a, c) + Count(b, c)
    decreases |a|
  {
    if a == [] {
      assert a + b == b;
    } else {
      assert (a + b)[0] == a[0];
      assert (a + b)[1..] == a[1..] + b;
      CountAppend(a[1..], b, c);
    }
  }

  lemma {:induction false} TrimLeftKeepsCount(s: string, c: char)
    requires !IsSpace(c)
    ensures Count(TrimLeft(s), c) == Count(s, c)
    decreases |s|
  {
    if s != [] && IsSpace(s[0]) {
      TrimLeftKeepsCount(s[1..], c);
    }
  }

  lemma {:induction false} TrimRightKeepsCount(s: string, c: char)
    requires !IsSpace(c)
    ensures Count(TrimRight(s), c) == Count(s, c)
    decreases |s|
  {
    if s != [] && IsSpace(s[|s| - 1]) {
      var init := s[..|s| - 1];
      TrimRightKeepsCount(init, c);
      assert s == init + [s[|s| - 1]];
      CountAppend(init, [s[|s| - 1]], c);
      assert [s[|s| - 1]][1..] == [];
    }
  }

  /** Stripping whitespace keeps every occurrence of a non-space character. */
  lemma StripKeepsCount(s: string, c: char)
    requires !IsSpace(c)
    ensures Count(Strip(s), c) == Count(s, c)
  {
    TrimLeftKeepsCount(s, c);
    TrimRightKeepsCount(TrimLeft(s), c);
  }
}
