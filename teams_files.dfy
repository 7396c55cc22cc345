/** Which snapshot files of a Teams export are used and in which order: a file
    is used when its name ends in ".json" (in any letter case) and carries a
    valid `YYYY-MM-DD-HH-MM-SS` timestamp; the used files are processed in
    ascending (timestamp, full path) order. */
module TeamsFiles {
  import opened Tree

  // ------------------------------------------------------------ timestamps

  /** A naive date and time; only ever built from a file name. */
  datatype DateTime = DateTime(year: int, month: int, day: int, hour: int, minute: int, second: int)

  predicate IsDigit(c: char) {
    '0' <= c <= '9'
  }

  /** `s[i..i + n]` consists of `n` decimal digits. */
  predicate Digits(s: string, i: nat, n: nat) {
    i + n <= |s| && (n == 0 || (IsDigit(s[i + n - 1]) && Digits(s, i, n - 1)))
  }

  /** `\d{4}-\d{2}-\d{2}-\d{2}-\d{2}-\d{2}` matches the 19 characters from `i`. */
  predicate StampAt(s: string, i: nat) {
    i + 19 <= |s|
    && Digits(s, i, 4) && s[i + 4] == '-'
    && Digits(s, i + 5, 2) && s[i + 7] == '-'
    && Digits(s, i + 8, 2) && s[i + 10] == '-'
    && Digits(s, i + 11, 2) && s[i + 13] == '-'
    && Digits(s, i + 14, 2) && s[i + 16] == '-'
    && Digits(s, i + 17, 2)
  }

  /** `i` is where `re.search` finds the timestamp pattern: the leftmost match. */
  predicate IsFirstStamp(s: string, i: nat) {
    StampAt(s, i) && forall k: nat :: k < i ==> !StampAt(s, k)
  }

  /** The decimal value of the digits `s[i..i + n]`. */
  function Number(s: string, i: nat, n: nat): nat
    requires Digits(s, i, n)
  {
    if n == 0 then 0
    else Number(s, i, n - 1) * 10 + (s[i + n - 1] as int - '0' as int)
  }

  /** The six fields of the timestamp at `i`, as `strptime` reads them. */
  function Decode(s: string, i: nat): DateTime
    requires StampAt(s, i)
  {
    DateTime(Number(s, i, 4), Number(s, i + 5, 2), Number(s, i + 8, 2),
             Number(s, i + 11, 2), Number(s, i + 14, 2), Number(s, i + 17, 2))
  }

  predicate IsLeap(y: int) {
    y % 4 == 0 && (y % 100 != 0 || y % 400 == 0)
  }

  function DaysInMonth(y: int, m: int): int
    requires 1 <= m <= 12
  {
    if m == 2 then (if IsLeap(y) then 29 else 28)
    else if m == 4 || m == 6 || m == 9 || m == 11 then 30
    else 31
  }

  /** The date-times `datetime.strptime` accepts for "%Y-%m-%d-%H-%M-%S". */
  predicate ValidDateTime(d: DateTime) {
    1 <= d.year <= 9999 && 1 <= d.month <= 12 && 1 <= d.day <= DaysInMonth(d.year, d.month)
    && 0 <= d.hour <= 23 && 0 <= d.minute <= 59 && 0 <= d.second <= 59
  }

  /** The leftmost timestamp-shaped position at or after `i`. */
  function FirstStamp(s: string, i: nat): (r: Option<nat>)
    ensures r.None? ==> forall k: nat :: i <= k ==> !StampAt(s, k)
    ensures r.Some? ==> i <= r.value && StampAt(s, r.value)
    ensures r.Some? ==> forall k: nat :: i <= k < r.value ==> !StampAt(s, k)
    decreases |s| - i
  {
    if i + 19 > |s| then None
    else if StampAt(s, i) then Some(i)
    else FirstStamp(s, i + 1)
  }

  /** `get_timestamp_from_filename`: the first timestamp-shaped substring of
      the name, decoded, or nothing when there is none or it is not a real
      date and time. A later well-formed timestamp is never tried. */
  function ParseTimestamp(name: string): (r: Option<DateTime>)
    ensures r.Some? ==> ValidDateTime(r.value)
  {
    match FirstStamp(name, 0)
    case None => None
    case Some(i) =>
      var d := Decode(name, i);
      if ValidDateTime(d) then Some(d) else None
  }

  /** A timestamp is found exactly when the name has a timestamp-shaped
      substring whose leftmost occurrence is a real date and time. */
  lemma ParseTimestampSpec(name: string)
    ensures (forall i: nat :: !StampAt(name, i)) ==> ParseTimestamp(name).None?
    ensures forall i: nat :: IsFirstStamp(name, i) ==>
      ParseTimestamp(name) == (if ValidDateTime(Decode(name, i)) then Some(Decode(name, i)) else None)
  {
    var f := FirstStamp(name, 0);
    if f.Some? {
      forall i: nat | IsFirstStamp(name, i) ensures i == f.value {
      }
    }
  }

  lemma Number2(s: string, i: nat)
    requires Digits(s, i, 2)
    ensures Number(s, i, 2) == (s[i] as int - '0' as int) * 10 + (s[i + 1] as int - '0' as int)
  {
    assert Number(s, i, 1) == Number(s, i, 0) * 10 + (s[i] as int - '0' as int);
  }

  lemma Number4(s: string, i: nat)
    requires Digits(s, i, 4)
    ensures Number(s, i, 4) == (s[i] as int - '0' as int) * 1000 + (s[i + 1] as int - '0' as int) * 100
                             + (s[i + 2] as int - '0' as int) * 10 + (s[i + 3] as int - '0' as int)
  {
    Number2(s, i);
    assert Number(s, i, 3) == Number(s, i, 2) * 10 + (s[i + 2] as int - '0' as int);
  }

  /** The six fields of a well-formed timestamp, position by position. */
  lemma DecodeDigits(s: string, i: nat)
    requires StampAt(s, i)
    ensures Decode(s, i).year == (s[i] as int - '0' as int) * 1000 + (s[i + 1] as int - '0' as int) * 100
                               + (s[i + 2] as int - '0' as int) * 10 + (s[i + 3] as int - '0' as int)
    ensures Decode(s, i).month == (s[i + 5] as int - '0' as int) * 10 + (s[i + 6] as int - '0' as int)
    ensures Decode(s, i).day == (s[i + 8] as int - '0' as int) * 10 + (s[i + 9] as int - '0' as int)
    ensures Decode(s, i).hour == (s[i + 11] as int - '0' as int) * 10 + (s[i + 12] as int - '0' as int)
    ensures Decode(s, i).minute == (s[i + 14] as int - '0' as int) * 10 + (s[i + 15] as int - '0' as int)
    ensures Decode(s, i).second == (s[i + 17] as int - '0' as int) * 10 + (s[i + 18] as int - '0' as int)
  {
    Number4(s, i);
    Number2(s, i + 5);
    Number2(s, i + 8);
    Number2(s, i + 11);
    Number2(s, i + 14);
    Number2(s, i + 17);
  }

  // ------------------------------------------------------------ file names

  function LowerAscii(c: char): char {
    if 'A' <= c <= 'Z' then (c as int + 32) as char else c
  }

  /** `name.lower().endswith(".json")`. Lower-casing a character other than
      an ASCII letter never yields one of ".json", so only the last five
      characters matter. */
  predicate IsJsonName(name: string) {
    |name| >= 5 && name[|name| - 5] == '.'
    && LowerAscii(name[|name| - 4]) == 'j' && LowerAscii(name[|name| - 3]) == 's'
    && LowerAscii(name[|name| - 2]) == 'o' && LowerAscii(name[|name| - 1]) == 'n'
  }

  /** `os.path.join(root, name)` on POSIX. */
  function PathJoin(root: string, name: string): (p: string)
    ensures |name| > 0 && name[0] == '/' ==> p == name
    ensures |p| >= |name|
    ensures (|name| == 0 || name[0] != '/') ==> p[|p| - |name|..] == name
  {
    if |name| > 0 && name[0] == '/' then name
    else if root == [] || root[|root| - 1] == '/' then root + name
    else root + "/" + name
  }

  // ------------------------------------------------------------ processing order

  /** One usable file: its timestamp and its full path. */
  datatype Entry = Entry(stamp: DateTime, path: string)

  function CodePoints(s: string): (r: seq<int>)
    ensures |r| == |s| && forall i :: 0 <= i < |s| ==> r[i] == s[i] as int
  {
    if s == [] then [] else [s[0] as int] + CodePoints(s[1..])
  }

  /** The sort key of an entry: the six fields, then the path's code points.
      Comparing keys lexicographically is Python's tuple comparison of
      `(datetime, str)`. */
  function Key(e: Entry): seq<int> {
    [e.stamp.year, e.stamp.month, e.stamp.day, e.stamp.hour, e.stamp.minute, e.stamp.second]
    + CodePoints(e.path)
  }

  /** Lexicographic order; a proper prefix comes first. */
  predicate LexLess(a: seq<int>, b: seq<int>) {
    if b == [] then false
    else if a == [] then true
    else a[0] < b[0] || (a[0] == b[0] && LexLess(a[1..], b[1..]))
  }

  lemma {:induction false} LexLessIrreflexive(a: seq<int>)
    ensures !LexLess(a, a)
  {
    if a != [] { LexLessIrreflexive(a[1..]); }
  }

  lemma {:induction false} LexLessTransitive(a: seq<int>, b: seq<int>, c: seq<int>)
    requires LexLess(a, b) && LexLess(b, c)
    ensures LexLess(a, c)
  {
    if a != [] && a[0] == b[0] && b[0] == c[0] {
      LexLessTransitive(a[1..], b[1..], c[1..]);
    }
  }

  lemma {:induction false} LexLessTotal(a: seq<int>, b: seq<int>)
    ensures a == b || LexLess(a, b) || LexLess(b, a)
  {
    if a != [] && b != [] && a[0] == b[0] {
      LexLessTotal(a[1..], b[1..]);
      if a[1..] == b[1..] {
        HeadTailEq(a, b);
      }
    }
  }

  lemma HeadTailEq(a: seq<int>, b: seq<int>)
    requires a != [] && b != [] && a[0] == b[0] && a[1..] == b[1..]
    ensures a == b
  {
    assert a == [a[0]] + a[1..];
    assert b == [b[0]] + b[1..];
  }

  lemma KeyInjective(x: Entry, y: Entry)
    requires Key(x) == Key(y)
    ensures x == y
  {
    var kx, ky := Key(x), Key(y);
    assert kx[..6] == ky[..6];
    assert CodePoints(x.path) == kx[6..] == ky[6..] == CodePoints(y.path);
    assert forall i :: 0 <= i < |x.path| ==> x.path[i] as int == y.path[i] as int;
  }

  /** Python's `<` on `(timestamp, full_path)` tuples. */
  predicate Before(x: Entry, y: Entry) {
    LexLess(Key(x), Key(y))
  }

  lemma BeforeIsStrictTotal(x: Entry, y: Entry, z: Entry)
    ensures !Before(x, x)
    ensures Before(x, y) && Before(y, z) ==> Before(x, z)
    ensures x == y || Before(x, y) || Before(y, x)
  {
    LexLessIrreflexive(Key(x));
    if Before(x, y) && Before(y, z) { LexLessTransitive(Key(x), Key(y), Key(z)); }
    LexLessTotal(Key(x), Key(y));
    if Key(x) == Key(y) { KeyInjective(x, y); }
  }

  /** Python's `<` on two `datetime` values: field by field, from the year
      down to the second. */
  predicate StampBefore(x: DateTime, y: DateTime) {
    x.year < y.year || (x.year == y.year &&
    (x.month < y.month || (x.month == y.month &&
    (x.day < y.day || (x.day == y.day &&
    (x.hour < y.hour || (x.hour == y.hour &&
    (x.minute < y.minute || (x.minute == y.minute && x.second < y.second)))))))))
  }

  /** The processing order is the tuple order: the earlier timestamp first,
      and for equal timestamps the path that is smaller code point by code
      point, a proper prefix first. */
  lemma BeforeIsTupleOrder(x: Entry, y: Entry)
    ensures Before(x, y) <==> (StampBefore(x.stamp, y.stamp)
      || (x.stamp == y.stamp && LexLess(CodePoints(x.path), CodePoints(y.path))))
  {
    var a, b := x.stamp, y.stamp;
    var fx := [a.year, a.month, a.day, a.hour, a.minute, a.second];
    var fy := [b.year, b.month, b.day, b.hour, b.minute, b.second];
    LexLessAppend(fx, CodePoints(x.path), fy, CodePoints(y.path));
    FieldsLess(a, b);
    assert fx == fy <==> a == b;
  }

  lemma FieldsLess(a: DateTime, b: DateTime)
    ensures LexLess([a.year, a.month, a.day, a.hour, a.minute, a.second],
                    [b.year, b.month, b.day, b.hour, b.minute, b.second])
        <==> StampBefore(a, b)
  {
    LexLessCons(a.second, [], b.second, []);
    LexLessCons(a.minute, [a.second], b.minute, [b.second]);
    LexLessCons(a.hour, [a.minute, a.second], b.hour, [b.minute, b.second]);
    LexLessCons(a.day, [a.hour, a.minute, a.second], b.day, [b.hour, b.minute, b.second]);
    LexLessCons(a.month, [a.day, a.hour, a.minute, a.second],
                b.month, [b.day, b.hour, b.minute, b.second]);
    LexLessCons(a.year, [a.month, a.day, a.hour, a.minute, a.second],
                b.year, [b.month, b.day, b.hour, b.minute, b.second]);
  }

  lemma LexLessCons(h1: int, t1: seq<int>, h2: int, t2: seq<int>)
    ensures LexLess([h1] + t1, [h2] + t2) <==> h1 < h2 || (h1 == h2 && LexLess(t1, t2))
  {
    assert ([h1] + t1)[1..] == t1 && ([h2] + t2)[1..] == t2;
  }

  /** Keys that agree in length up to a point compare by that part first. */
  lemma {:induction false} LexLessAppend(a: seq<int>, b: seq<int>, c: seq<int>, d: seq<int>)
    requires |a| == |c|
    ensures LexLess(a + b, c + d) <==> LexLess(a, c) || (a == c && LexLess(b, d))
    decreases |a|
  {
    if a == [] {
      assert a + b == b && c + d == d;
    } else {
      assert (a + b)[0] == a[0] && (c + d)[0] == c[0];
      assert (a + b)[1..] == a[1..] + b && (c + d)[1..] == c[1..] + d;
      LexLessAppend(a[1..], b, c[1..], d);
      if a[0] == c[0] && a[1..] == c[1..] {
        HeadTailEq(a, c);
      }
    }
  }

  predicate NotAfter(x: Entry, y: Entry) {
    x == y || Before(x, y)
  }

  ghost predicate Sorted(s: seq<Entry>) {
    forall i, j :: 0 <= i < j < |s| ==> NotAfter(s[i], s[j])
  }

  /** `x` inserted into the sorted `s` before the first entry it is before. */
  function Insert(x: Entry, s: seq<Entry>): (r: seq<Entry>)
    requires Sorted(s)
    ensures Sorted(r) && multiset(r) == multiset(s) + multiset{x}
    ensures forall e :: e in r ==> e == x || e in s
  {
    if s == [] then [x]
    else if NotAfter(x, s[0]) then
      InsertFront(x, s);
      [x] + s
    else
      var t := Insert(x, s[1..]);
      BeforeIsStrictTotal(x, s[0], x);
      InsertBehind(s[0], t, x, s[1..]);
      assert s == [s[0]] + s[1..];
      [s[0]] + t
  }

  lemma InsertFront(x: Entry, s: seq<Entry>)
    requires Sorted(s) && s != [] && NotAfter(x, s[0])
    ensures Sorted([x] + s)
  {
    var r := [x] + s;
    forall i, j | 0 <= i < j < |r| ensures NotAfter(r[i], r[j]) {
      assert r[j] == s[j - 1];
      if i == 0 {
        assert NotAfter(s[0], s[j - 1]);
        if x != s[0] && s[0] != s[j - 1] { BeforeIsStrictTotal(x, s[0], s[j - 1]); }
      } else {
        assert r[i] == s[i - 1];
      }
    }
  }

  lemma InsertBehind(h: Entry, t: seq<Entry>, x: Entry, s: seq<Entry>)
    requires Sorted(t) && Before(h, x)
    requires forall e :: e in s ==> NotAfter(h, e)
    requires forall e :: e in t ==> e == x || e in s
    ensures Sorted([h] + t)
  {
    var r := [h] + t;
    forall i, j | 0 <= i < j < |r| ensures NotAfter(r[i], r[j]) {
      assert r[j] == t[j - 1] && t[j - 1] in t;
      if i > 0 {
        assert r[i] == t[i - 1];
      }
    }
  }

  /** `json_files.sort()`: the entries in ascending order, none lost or added. */
  function SortEntries(es: seq<Entry>): (r: seq<Entry>)
    ensures Sorted(r) && multiset(r) == multiset(es)
  {
    if es == [] then []
    else
      assert es == [es[0]] + es[1..];
      Insert(es[0], SortEntries(es[1..]))
  }

  /** Sorting determines the order completely: two sorted arrangements of
      the same entries are equal, so any stable or unstable sort agrees. */
  lemma {:induction false} SortedUnique(a: seq<Entry>, b: seq<Entry>)
    requires Sorted(a) && Sorted(b) && multiset(a) == multiset(b)
    ensures a == b
    decreases |a|
  {
    if a != [] {
      assert |b| == |multiset(b)| == |a|;
      SortedHeads(a, b);
      SameTails(a, b);
      SortedTail(a);
      SortedTail(b);
      SortedUnique(a[1..], b[1..]);
      assert a == [a[0]] + a[1..];
      assert b == [b[0]] + b[1..];
    }
  }

  /** Two sorted arrangements of the same entries start alike. */
  lemma SortedHeads(a: seq<Entry>, b: seq<Entry>)
    requires Sorted(a) && Sorted(b) && multiset(a) == multiset(b) && a != [] && b != []
    ensures a[0] == b[0]
  {
    assert a[0] in multiset(b) && b[0] in multiset(a);
    var i :| 0 <= i < |b| && b[i] == a[0];
    var j :| 0 <= j < |a| && a[j] == b[0];
    assert NotAfter(b[0], b[i]) by { if i > 0 { assert 0 < i < |b|; } }
    assert NotAfter(a[0], a[j]) by { if j > 0 { assert 0 < j < |a|; } }
    BeforeIsStrictTotal(a[0], b[0], a[0]);
  }

  lemma SameTails(a: seq<Entry>, b: seq<Entry>)
    requires multiset(a) == multiset(b) && a != [] && b != [] && a[0] == b[0]
    ensures multiset(a[1..]) == multiset(b[1..])
  {
    assert a == [a[0]] + a[1..];
    assert b == [b[0]] + b[1..];
    calc {
      multiset(a[1..]);
      multiset([a[0]] + a[1..]) - multiset{a[0]};
      multiset(a) - multiset{a[0]};
      multiset(b) - multiset{b[0]};
      multiset([b[0]] + b[1..]) - multiset{b[0]};
      multiset(b[1..]);
    }
  }

  lemma SortedTail(a: seq<Entry>)
    requires Sorted(a) && a != []
    ensures Sorted(a[1..])
  {
    var t := a[1..];
    forall i, j | 0 <= i < j < |t| ensures NotAfter(t[i], t[j]) {
      assert t[i] == a[i + 1] && t[j] == a[j + 1];
    }
  }

  lemma SortEntriesUnique(es: seq<Entry>, r: seq<Entry>)
    requires Sorted(r) && multiset(r) == multiset(es)
    ensures r == SortEntries(es)
  {
    SortedUnique(r, SortEntries(es));
  }

  // ------------------------------------------------------------ collecting

  /** One step of `os.walk`: a directory and the plain files in it. */
  datatype Dir = Dir(root: string, files: seq<string>)

  /** What one listed file contributes to `json_files`. */
  function EntryOf(root: string, name: string): Option<Entry>
  {
    if IsJsonName(name) then
      match ParseTimestamp(name)
      case Some(t) => Some(Entry(t, PathJoin(root, name)))
      case None => None
    else None
  }

  function OptList(e: Option<Entry>): seq<Entry> {
    if e.Some? then [e.value] else []
  }

  function DirEntries(root: string, names: seq<string>): seq<Entry> {
    if names == [] then []
    else DirEntries(root, names[..|names| - 1]) + OptList(EntryOf(root, names[|names| - 1]))
  }

  function WalkEntries(walk: seq<Dir>): seq<Entry> {
    if walk == [] then []
    else
      var d := walk[|walk| - 1];
      WalkEntries(walk[..|walk| - 1]) + DirEntries(d.root, d.files)
  }

  ghost predicate ListedIn(walk: seq<Dir>, e: Entry) {
    exists d, name :: d in walk && name in d.files && EntryOf(d.root, name) == Some(e)
  }

  ghost predicate InDir(d: Dir, e: Entry) {
    exists name :: name in d.files && EntryOf(d.root, name) == Some(e)
  }

  lemma {:induction false} DirEntriesMembers(root: string, names: seq<string>, e: Entry)
    ensures e in DirEntries(root, names) <==>
      exists name :: name in names && EntryOf(root, name) == Some(e)
    decreases |names|
  {
    if names != [] {
      var init := names[..|names| - 1];
      var last := names[|names| - 1];
      DirEntriesMembers(root, init, e);
      assert names == init + [last];
      assert forall name :: name in names <==> name in init || name == last;
    }
  }

  /** `json_files` holds exactly the listed ".json" files with a valid
      timestamp, paired with their full paths. */
  lemma {:induction false} WalkEntriesMembers(walk: seq<Dir>, e: Entry)
    ensures e in WalkEntries(walk) <==> ListedIn(walk, e)
    decreases |walk|
  {
    if walk != [] {
      var init := walk[..|walk| - 1];
      var d := walk[|walk| - 1];
      WalkEntriesMembers(init, e);
      DirEntriesMembers(d.root, d.files, e);
      ListedInLast(walk, e);
    }
  }

  lemma ListedInLast(walk: seq<Dir>, e: Entry)
    requires walk != []
    ensures ListedIn(walk, e) <==> (ListedIn(walk[..|walk| - 1], e) || InDir(walk[|walk| - 1], e))
  {
    var init := walk[..|walk| - 1];
    var d := walk[|walk| - 1];
    assert walk == init + [d];
    assert forall x :: x in walk <==> x in init || x == d;
    if InDir(d, e) {
      var name :| name in d.files && EntryOf(d.root, name) == Some(e);
      assert d in walk;
    }
    if ListedIn(walk, e) && !ListedIn(init, e) {
      var x, name :| x in walk && name in x.files && EntryOf(x.root, name) == Some(e);
      assert x == d;
    }
  }

  /** The scan of lines 219-227: every listed file, directory by directory,
      with a timestamped ".json" name is recorded with its full path. */
  method CollectEntries(walk: seq<Dir>) returns (entries: seq<Entry>)
    ensures entries == WalkEntries(walk)
  {
    entries := [];
    for i := 0 to |walk|
      invariant entries == WalkEntries(walk[..i])
    {
      var found := ScanDir(walk[i].root, walk[i].files);
      entries := entries + found;
      assert walk[..i + 1][..i] == walk[..i];
    }
    assert walk[..|walk|] == walk;
  }

  /** The inner loop: the entries of one directory's files, in listing order. */
  method ScanDir(root: string, files: seq<string>) returns (found: seq<Entry>)
    ensures found == DirEntries(root, files)
  {
    found := [];
    for j := 0 to |files|
      invariant found == DirEntries(root, files[..j])
    {
      var e := EntryOf(root, files[j]);
      if e.Some? {
        found := found + [e.value];
      }
      assert files[..j + 1][..j] == files[..j];
    }
    assert files[..|files|] == files;
  }
}
