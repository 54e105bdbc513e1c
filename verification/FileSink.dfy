/** The rotating log file (src/system/logger/file_sink2.cxx) on a file system of names and contents. */
module FileSink {

  type Content = seq<int>
  type Files = map<string, Content>

  // ---------------------------------------------------------------- file names

  function Digit(d: nat): char
    requires d < 10
  {
    ['0', '1', '2', '3', '4', '5', '6', '7', '8', '9'][d]
  }

  function Decimal(n: nat): (s: string)
    ensures |s| > 0
  {
    if n < 10 then [Digit(n)] else Decimal(n / 10) + [Digit(n % 10)]
  }

  lemma {:induction false} DecimalInjective(m: nat, n: nat)
    requires Decimal(m) == Decimal(n)
    ensures m == n
  {
    var dm, dn := Decimal(m), Decimal(n);
    assert dm[|dm| - 1] == Digit(m % 10) && dn[|dn| - 1] == Digit(n % 10);
    assert m % 10 == n % 10;
    if m >= 10 && n >= 10 {
      assert dm[..|dm| - 1] == Decimal(m / 10) && dn[..|dn| - 1] == Decimal(n / 10);
      DecimalInjective(m / 10, n / 10);
    }
  }

  function DigitValue(c: char): nat {
    if '0' <= c <= '9' then (c - '0') as nat else 0
  }

  function DecimalValue(s: string): nat {
    if s == "" then 0 else 10 * DecimalValue(s[..|s| - 1]) + DigitValue(s[|s| - 1])
  }

  lemma DigitReadsBack(d: nat)
    requires d < 10
    ensures '0' <= Digit(d) <= '9' && DigitValue(Digit(d)) == d && (d > 0 ==> Digit(d) != '0')
  {
  }

  lemma OneMoreDigit(s: string, c: char)
    ensures DecimalValue(s + [c]) == 10 * DecimalValue(s) + DigitValue(c)
    ensures DecimalValue("") == 0
  {
    assert (s + [c])[..|s|] == s;
  }

  /** A number's text has digits only, no leading zero but that of "0" itself, and reads back as the number. */
  lemma {:induction false} DecimalReadsBack(n: nat)
    ensures DecimalValue(Decimal(n)) == n
    ensures forall c | c in Decimal(n) :: '0' <= c <= '9'
    ensures n > 0 ==> Decimal(n)[0] != '0'
    decreases n
  {
    DigitReadsBack(n % 10);
    hide Digit, DigitValue, DecimalValue;
    if n < 10 {
      OneMoreDigit("", Digit(n));
      assert "" + [Digit(n)] == [Digit(n)];
    } else {
      DecimalReadsBack(n / 10);
      OneMoreDigit(Decimal(n / 10), Digit(n % 10));
    }
  }

  /** The `i`-th rotated file; `Numbered(name, -1)` is the log itself. */
  function Numbered(name: string, i: int): string
    requires -1 <= i
  {
    if i == -1 then name else name + "." + Decimal(i)
  }

  lemma LogIsNumbered(name: string)
    ensures Numbered(name, -1) == name
  {
  }

  /** The rotated files are called like the log, with a dot and their number added. */
  lemma NumberedNames(name: string, i: nat)
    ensures |name| < |Numbered(name, i)| && Numbered(name, i)[..|name|] == name && Numbered(name, i)[|name|] == '.'
    ensures DecimalValue(Numbered(name, i)[|name| + 1..]) == i
    ensures Numbered(name, 0) == name + ".0"
  {
    DecimalReadsBack(i);
    assert Numbered(name, i)[|name| + 1..] == Decimal(i);
  }

  lemma NumberedInjective(name: string, i: int, j: int)
    requires -1 <= i && -1 <= j && i != j
    ensures Numbered(name, i) != Numbered(name, j)
  {
    if i != -1 && j != -1 {
      assert Numbered(name, i)[|name| + 1..] == Decimal(i) && Numbered(name, j)[|name| + 1..] == Decimal(j);
      if Decimal(i) == Decimal(j) {
        DecimalInjective(i, j);
      }
    }
  }

  // ---------------------------------------------------------------- rotation

  function Removed(fs: Files, name: string): Files {
    fs - {name}
  }

  /** A rename of a missing file fails and changes nothing. */
  function Renamed(fs: Files, src: string, dest: string): Files {
    if src in fs then (fs - {src})[dest := fs[src]] else fs
  }

  /** All renames at once: each file takes the place of its successor, the oldest is dropped, the rest is untouched. */
  ghost predicate Shifted(fs: Files, fs': Files, name: string, keep: int) {
    && (forall i | 0 <= i < keep :: Moved(fs, fs', Numbered(name, i - 1), Numbered(name, i)))
    && (keep > 0 ==> name !in fs')
    && (forall n | !InChain(n, name, keep) :: Moved(fs, fs', n, n))
  }

  /** What was under `src`, or its absence, is now under `dest`. */
  ghost predicate Moved(fs: Files, fs': Files, src: string, dest: string) {
    (src in fs <==> dest in fs') && (src in fs ==> fs'[dest] == fs[src])
  }

  ghost predicate InChain(n: string, name: string, keep: int) {
    keep > 0 && exists i :: -1 <= i < keep && n == Numbered(name, i)
  }

  /** What the loop has done when it has come down to `i`. */
  ghost predicate ShiftedDownTo(fs: Files, fs': Files, name: string, keep: int, i: int)
    requires -1 <= i || i + 1 == keep
  {
    && (forall j | i < j < keep :: Moved(fs, fs', Numbered(name, j - 1), Numbered(name, j)))
    && (i + 1 < keep ==> Numbered(name, i) !in fs')
    && (forall j | -1 <= j < (if i + 1 < keep then i else keep) :: Moved(fs, fs', Numbered(name, j), Numbered(name, j)))
    && (forall n | !InChain(n, name, keep) :: Moved(fs, fs', n, n))
  }

  lemma ShiftStep(fs: Files, fs1: Files, fs2: Files, name: string, keep: int, i: int)
    requires 0 <= i < keep && ShiftedDownTo(fs, fs1, name, keep, i)
    requires fs2 == Renamed(Removed(fs1, Numbered(name, i)), Numbered(name, i - 1), Numbered(name, i))
    ensures ShiftedDownTo(fs, fs2, name, keep, i - 1)
  {
    hide Numbered;
    var src, dest := Numbered(name, i - 1), Numbered(name, i);
    NumberedInjective(name, i - 1, i);
    forall j | -1 <= j
      ensures j != i - 1 ==> Numbered(name, j) != src
      ensures j != i ==> Numbered(name, j) != dest
    {
      if j != i - 1 { NumberedInjective(name, j, i - 1); }
      if j != i { NumberedInjective(name, j, i); }
    }
    assert Moved(fs, fs1, src, src);
    assert InChain(src, name, keep) && InChain(dest, name, keep);
  }

  /**
   * The loop of removes and renames, from the oldest file down, is the simultaneous shift, for any keep
   * count; zero and negative counts leave every file alone.
   */
  method RotateLogs(fs: Files, name: string, keep: int) returns (fs': Files)
    ensures Shifted(fs, fs', name, keep)
    ensures keep <= 0 ==> fs' == fs
  {
    fs' := fs;
    var i := keep - 1;
    while i >= 0
      invariant i < keep && (-1 <= i || i + 1 == keep)
      invariant keep <= 0 ==> fs' == fs
      invariant ShiftedDownTo(fs, fs', name, keep, i)
    {
      ghost var before := fs';
      var dest := Numbered(name, i);
      fs' := Removed(fs', dest);
      var src := Numbered(name, i - 1);
      fs' := Renamed(fs', src, dest);
      ShiftStep(fs, before, fs', name, keep, i);
      i := i - 1;
    }
  }

  // ---------------------------------------------------------------- what a sink's files consist of

  /** One record's bytes in a file, or what a failed write left of one. */
  datatype Piece = Piece(bytes: Content, whole: bool)

  /** The files before the sink started, the files it has closed, oldest first, and the one it is writing. */
  datatype History = History(original: Files, closed: seq<seq<Piece>>, current: seq<Piece>)

  function Flat(pieces: seq<Piece>): Content {
    if pieces == [] then [] else Flat(pieces[..|pieces| - 1]) + pieces[|pieces| - 1].bytes
  }

  /** The bytes of the records written in full, which is what the sink counts. */
  function Counted(pieces: seq<Piece>): (n: nat)
    ensures n <= |Flat(pieces)|
    ensures (forall p | p in pieces :: p.whole) ==> n == |Flat(pieces)|
  {
    if pieces == [] then 0
    else
      var last := pieces[|pieces| - 1];
      assert forall p | p in pieces[..|pieces| - 1] :: p in pieces;
      assert last in pieces;
      Counted(pieces[..|pieces| - 1]) + if last.whole then |last.bytes| else 0
  }

  function AllClosed(closed: seq<seq<Piece>>): Content {
    if closed == [] then [] else AllClosed(closed[..|closed| - 1]) + Flat(closed[|closed| - 1])
  }

  /** Every byte that reached a file since the sink started, in order. */
  function NewBytes(h: History): Content {
    AllClosed(h.closed) + Flat(h.current)
  }

  /**
   * Where everything is after any number of rotations: `name.i` is the `i`-th last closed file, or, when
   * fewer were closed, the pre-existing file that many places back; files outside the chain are untouched.
   */
  ghost predicate Described(fs: Files, name: string, keep: int, h: History) {
    && name in fs && fs[name] == Flat(h.current)
    && (forall i | 0 <= i < keep :: Placed(fs, name, h, i))
    && (forall n | !InChain(n, name, keep) && n != name :: Moved(h.original, fs, n, n))
  }

  ghost predicate Placed(fs: Files, name: string, h: History, i: nat) {
    if i < |h.closed| then Numbered(name, i) in fs && fs[Numbered(name, i)] == Flat(h.closed[|h.closed| - 1 - i])
    else Moved(h.original, fs, Numbered(name, i - 1 - |h.closed|), Numbered(name, i))
  }

  /** A closed file reached the limit with its last record and not before. */
  ghost predicate ClosedInTime(pieces: seq<Piece>, max: nat) {
    && pieces != [] && pieces[|pieces| - 1].whole && pieces[|pieces| - 1].bytes != []
    && Counted(pieces) >= max
    && (Counted(pieces[..|pieces| - 1]) < max || (max == 0 && Counted(pieces[..|pieces| - 1]) == 0))
  }

  ghost predicate Bounded(h: History, max: nat) {
    && (forall k | 0 <= k < |h.closed| :: ClosedInTime(h.closed[k], max))
    && (Counted(h.current) < max || (max == 0 && Counted(h.current) == 0))
  }

  /** Rotating and reopening closes the current file and leaves everything described. */
  lemma RotationKeepsDescription(fs: Files, fs1: Files, name: string, keep: int, h: History)
    requires Described(fs, name, keep, h) && Shifted(fs, fs1, name, keep)
    ensures Described(fs1[name := []], name, keep, History(h.original, h.closed + [h.current], []))
  {
    var h', fs2 := History(h.original, h.closed + [h.current], []), fs1[name := []];
    forall i | 0 <= i < keep
      ensures Placed(fs2, name, h', i)
    {
      assert Moved(fs, fs1, Numbered(name, i - 1), Numbered(name, i));
      NumberedInjective(name, i, -1);
      if i > 0 {
        assert Placed(fs, name, h, i - 1);
      }
    }
    forall n | !InChain(n, name, keep) && n != name
      ensures Moved(h.original, fs2, n, n)
    {
      assert Moved(fs, fs1, n, n);
    }
  }

  /** The first rotation, when the sink starts, puts the log of the previous run under `name.0`. */
  lemma StartIsDescribed(fs: Files, fs1: Files, name: string, keep: int)
    requires Shifted(fs, fs1, name, keep)
    ensures Described(fs1[name := []], name, keep, History(fs, [], []))
  {
    var fs2 := fs1[name := []];
    forall i | 0 <= i < keep
      ensures Placed(fs2, name, History(fs, [], []), i)
    {
      assert Moved(fs, fs1, Numbered(name, i - 1), Numbered(name, i));
      NumberedInjective(name, i, -1);
    }
  }

  lemma FlatAppend(pieces: seq<Piece>, p: Piece)
    ensures Flat(pieces + [p]) == Flat(pieces) + p.bytes
    ensures Counted(pieces + [p]) == Counted(pieces) + if p.whole then |p.bytes| else 0
  {
    assert (pieces + [p])[..|pieces|] == pieces;
  }

  lemma LogChangesNoOther(fs: Files, name: string, keep: int, h: History, content: Content, current: seq<Piece>)
    requires Described(fs, name, keep, h)
    ensures var fs', h' := fs[name := content], h.(current := current);
            && (forall i | 0 <= i < keep :: Placed(fs', name, h', i))
            && (forall n | !InChain(n, name, keep) && n != name :: Moved(h.original, fs', n, n))
  {
    hide Flat, Numbered, InChain;
    LogIsNumbered(name);
    var fs', h' := fs[name := content], h.(current := current);
    forall i | 0 <= i < keep
      ensures Placed(fs', name, h', i)
    {
      assert Placed(fs, name, h, i);
      NumberedInjective(name, i, -1);
    }
    forall n | !InChain(n, name, keep) && n != name
      ensures Moved(h.original, fs', n, n)
    {
      assert Moved(h.original, fs, n, n);
    }
  }

  lemma AppendKeepsDescription(fs: Files, name: string, keep: int, h: History, p: Piece)
    requires Described(fs, name, keep, h)
    ensures Described(fs[name := fs[name] + p.bytes], name, keep, h.(current := h.current + [p]))
  {
    FlatAppend(h.current, p);
    LogChangesNoOther(fs, name, keep, h, fs[name] + p.bytes, h.current + [p]);
    hide Flat, Placed, Moved, InChain;
  }

  // ---------------------------------------------------------------- what is retained

  function ContentOf(fs: Files, n: string): Content {
    if n in fs then fs[n] else []
  }

  /** The files from `name.top` to the log itself, oldest first, run together; missing files count as empty. */
  function Chain(fs: Files, name: string, top: int): Content
    requires -1 <= top
    decreases top + 1
  {
    if top == -1 then ContentOf(fs, name) else ContentOf(fs, Numbered(name, top)) + Chain(fs, name, top - 1)
  }

  function Kept(keep: int): nat {
    if keep <= 0 then 0 else keep
  }

  predicate IsSuffix(s: Content, whole: Content) {
    |s| <= |whole| && whole[|whole| - |s|..] == s
  }

  /** Of the bytes written since the start, those still in the chain: the last files closed, and the current one. */
  function RetainedNew(h: History, keep: int): Content {
    AllClosed(if |h.closed| <= Kept(keep) then h.closed else h.closed[|h.closed| - Kept(keep)..]) + Flat(h.current)
  }

  lemma {:induction false} AllClosedSplit(a: seq<seq<Piece>>, b: seq<seq<Piece>>)
    ensures AllClosed(a + b) == AllClosed(a) + AllClosed(b)
    decreases |b|
  {
    if b == [] {
      assert a + b == a;
    } else {
      assert (a + b)[..|a + b| - 1] == a + b[..|b| - 1];
      AllClosedSplit(a, b[..|b| - 1]);
    }
  }

  lemma AllClosedOfOne(file: seq<Piece>)
    ensures AllClosed([file]) == Flat(file) && AllClosed([]) == []
  {
    assert [file][..0] == [];
  }

  lemma CurrentContent(fs: Files, name: string, keep: int, h: History)
    requires Described(fs, name, keep, h)
    ensures Chain(fs, name, -1) == Flat(h.current)
  {
    hide Flat, Placed, Moved, InChain;
  }

  lemma ClosedContent(fs: Files, name: string, keep: int, h: History, i: nat)
    requires Described(fs, name, keep, h) && i < |h.closed| && i < Kept(keep)
    ensures ContentOf(fs, Numbered(name, i)) == Flat(h.closed[|h.closed| - 1 - i])
  {
    hide Flat, Moved, InChain, Numbered;
    assert Placed(fs, name, h, i);
  }

  lemma {:induction false} ChainIsClosedFiles(fs: Files, name: string, keep: int, h: History, top: int)
    requires Described(fs, name, keep, h) && -1 <= top < |h.closed| && top < Kept(keep)
    ensures Chain(fs, name, top) == AllClosed(h.closed[|h.closed| - 1 - top..]) + Flat(h.current)
    decreases top + 1
  {
    hide Described, AllClosed, Flat, Numbered, ContentOf;
    if top == -1 {
      CurrentContent(fs, name, keep, h);
      assert h.closed[|h.closed|..] == [];
      AllClosedOfOne([]);
    } else {
      var file, rest := h.closed[|h.closed| - 1 - top], h.closed[|h.closed| - top..];
      ClosedContent(fs, name, keep, h, top);
      ChainIsClosedFiles(fs, name, keep, h, top - 1);
      assert h.closed[|h.closed| - 1 - top..] == [file] + rest;
      AllClosedSplit([file], rest);
      AllClosedOfOne(file);
    }
  }

  lemma {:induction false} ChainReachesOriginal(fs: Files, name: string, keep: int, h: History, top: int)
    requires Described(fs, name, keep, h) && |h.closed| <= top < Kept(keep)
    ensures Chain(fs, name, top) == Chain(h.original, name, top - 1 - |h.closed|) + NewBytes(h)
    decreases top
  {
    hide Described, Numbered, NewBytes, ContentOf, AllClosed, Flat;
    MovedContent(fs, name, keep, h, top);
    if top == |h.closed| {
      ChainOfLog(h.original, name);
      ChainIsClosedFiles(fs, name, keep, h, top - 1);
      assert h.closed[0..] == h.closed;
      NewBytesAre(h);
    } else {
      ChainReachesOriginal(fs, name, keep, h, top - 1);
    }
  }

  lemma ChainOfLog(fs: Files, name: string)
    ensures Chain(fs, name, -1) == ContentOf(fs, Numbered(name, -1))
  {
  }

  lemma MovedContent(fs: Files, name: string, keep: int, h: History, i: nat)
    requires Described(fs, name, keep, h) && |h.closed| <= i < Kept(keep)
    ensures ContentOf(fs, Numbered(name, i)) == ContentOf(h.original, Numbered(name, i - 1 - |h.closed|))
  {
    hide Numbered, Flat, InChain;
    assert Placed(fs, name, h, i);
  }

  lemma NewBytesAre(h: History)
    ensures NewBytes(h) == AllClosed(h.closed) + Flat(h.current)
  {
    hide AllClosed, Flat;
  }

  lemma {:induction false} ShorterChainIsSuffix(fs: Files, name: string, low: int, high: int)
    requires -1 <= low <= high
    ensures IsSuffix(Chain(fs, name, low), Chain(fs, name, high))
    decreases high
  {
    hide Numbered, ContentOf;
    if low < high {
      ShorterChainIsSuffix(fs, name, low, high - 1);
      SuffixOfMore(Chain(fs, name, low), Chain(fs, name, high - 1), ContentOf(fs, Numbered(name, high)));
    }
  }

  lemma SuffixExtends(s: Content, whole: Content, more: Content)
    requires IsSuffix(s, whole)
    ensures IsSuffix(s + more, whole + more)
  {
  }

  /**
   * Over any run, the chain read from oldest to newest is the retained new bytes after what is left of the
   * pre-existing chain, and it is a suffix of everything: the pre-existing chain, then every byte written.
   */
  lemma ChainIsSuffix(fs: Files, name: string, keep: int, h: History)
    requires Described(fs, name, keep, h)
    ensures var chain := Chain(fs, name, Kept(keep) - 1);
            && IsSuffix(chain, Chain(h.original, name, Kept(keep) - 1) + NewBytes(h))
            && chain == (if Kept(keep) <= |h.closed| then [] else Chain(h.original, name, Kept(keep) - 2 - |h.closed|))
                        + RetainedNew(h, keep)
  {
    hide Described, Chain, NewBytes, RetainedNew, IsSuffix;
    var k: int, n: int := Kept(keep), |h.closed|;
    RetainedIsSuffix(h, keep);
    if k <= n {
      RetainedWhenFull(h, keep);
      ChainIsClosedFiles(fs, name, keep, h, k - 1);
      SuffixOfMore(RetainedNew(h, keep), NewBytes(h), Chain(h.original, name, k - 1));
    } else {
      ChainReachesOriginal(fs, name, keep, h, k - 1);
      ShorterChainIsSuffix(h.original, name, k - 2 - n, k - 1);
      SuffixExtends(Chain(h.original, name, k - 2 - n), Chain(h.original, name, k - 1), NewBytes(h));
    }
  }

  lemma SuffixOfMore(s: Content, whole: Content, before: Content)
    requires IsSuffix(s, whole)
    ensures IsSuffix(s, before + whole) && [] + s == s
  {
  }

  lemma RetainedWhenFull(h: History, keep: int)
    requires Kept(keep) <= |h.closed|
    ensures RetainedNew(h, keep) == AllClosed(h.closed[|h.closed| - Kept(keep)..]) + Flat(h.current)
  {
    hide AllClosed, Flat;
    if |h.closed| == Kept(keep) {
      assert h.closed[0..] == h.closed;
    }
  }

  lemma RetainedIsSuffix(h: History, keep: int)
    ensures IsSuffix(RetainedNew(h, keep), NewBytes(h))
    ensures |h.closed| <= Kept(keep) ==> RetainedNew(h, keep) == NewBytes(h)
  {
    hide AllClosed, Flat;
    var k, n := Kept(keep), |h.closed|;
    if k < n {
      AllClosedSplit(h.closed[..n - k], h.closed[n - k..]);
      assert h.closed[..n - k] + h.closed[n - k..] == h.closed;
      assert NewBytes(h) == AllClosed(h.closed[..n - k]) + RetainedNew(h, keep);
    }
  }

  lemma {:induction false} ClosedFilesHoldEnough(closed: seq<seq<Piece>>, max: nat)
    requires forall k | 0 <= k < |closed| :: ClosedInTime(closed[k], max)
    ensures |AllClosed(closed)| >= |closed| * max
    decreases |closed|
  {
    hide ClosedInTime, Flat;
    if closed != [] {
      ClosedFilesHoldEnough(closed[..|closed| - 1], max);
      ClosedFileIsFull(closed[|closed| - 1], max);
      assert |closed| * max == (|closed| - 1) * max + max;
    }
  }

  lemma ClosedFileIsFull(pieces: seq<Piece>, max: nat)
    requires ClosedInTime(pieces, max)
    ensures |Flat(pieces)| >= max
  {
  }

  /** Either every byte written is still there, or at least `keep` full files of them are. */
  lemma RetainsEnough(h: History, keep: int, max: nat)
    requires Bounded(h, max)
    ensures |RetainedNew(h, keep)| == |NewBytes(h)| || |RetainedNew(h, keep)| >= Kept(keep) * max
  {
    hide ClosedInTime, AllClosed, Flat, Counted;
    var k, n := Kept(keep), |h.closed|;
    if n > k {
      ClosedFilesHoldEnough(h.closed[n - k..], max);
    }
  }

  /** The bytes that failed writes left in a file, which the sink does not count. */
  function Uncounted(pieces: seq<Piece>): nat {
    if pieces == [] then 0
    else
      var last := pieces[|pieces| - 1];
      Uncounted(pieces[..|pieces| - 1]) + if last.whole then 0 else |last.bytes|
  }

  lemma {:induction false} CountedAndUncounted(pieces: seq<Piece>)
    ensures |Flat(pieces)| == Counted(pieces) + Uncounted(pieces)
    decreases |pieces|
  {
    if pieces != [] {
      CountedAndUncounted(pieces[..|pieces| - 1]);
    }
  }

  /**
   * A closed file has at least the limit. What the sink counts of it is less than the limit plus its last
   * record exactly when the limit is not zero; the file itself is exactly when, besides, failed writes
   * left less than its counted records lacked of the limit when the last one came.
   */
  lemma ClosedFileSize(pieces: seq<Piece>, max: nat)
    requires ClosedInTime(pieces, max)
    ensures var last, before := |pieces[|pieces| - 1].bytes|, pieces[..|pieces| - 1];
            && max <= |Flat(pieces)|
            && (Counted(pieces) < max + last <==> max > 0)
            && (|Flat(pieces)| < max + last <==> Counted(before) + Uncounted(before) < max)
            && (max == 0 ==> Counted(pieces) == last)
  {
    CountedAndUncounted(pieces);
    CountedAndUncounted(pieces[..|pieces| - 1]);
  }

  /** Without failed writes only a zero limit breaks the bound, and then every record closes its own file. */
  lemma ClosedFileSizeWithoutFailures(pieces: seq<Piece>, max: nat)
    requires ClosedInTime(pieces, max) && Uncounted(pieces) == 0
    ensures |Flat(pieces)| < max + |pieces[|pieces| - 1].bytes| <==> max > 0
    ensures max == 0 ==> Flat(pieces) == pieces[|pieces| - 1].bytes
  {
    ClosedFileSize(pieces, max);
    CountedAndUncounted(pieces[..|pieces| - 1]);
  }

  /** A file that breaks the bound at any limit: a failed write left `max` bytes before the closing record. */
  lemma FailedWriteOvershoots(max: nat, remnant: Content, record: Content)
    requires 0 < max <= |remnant| && max <= |record|
    ensures var pieces := [Piece(remnant, false), Piece(record, true)];
            ClosedInTime(pieces, max) && |Flat(pieces)| >= max + |record|
  {
    assert Flat([]) == [] && Counted([]) == 0;
    hide Flat, Counted;
    FlatAppend([], Piece(remnant, false));
    FlatAppend([Piece(remnant, false)], Piece(record, true));
    assert [] + [Piece(remnant, false)] == [Piece(remnant, false)];
    assert [Piece(remnant, false)] + [Piece(record, true)] == [Piece(remnant, false), Piece(record, true)];
    assert [Piece(remnant, false), Piece(record, true)][..1] == [Piece(remnant, false)];
  }

  /** A keep count above 2^31 arrives as a negative number: only the current file is ever retained. */
  lemma HugeKeepCountKeepsNoClosedFile(h: History, logsToKeep: nat)
    requires 0x8000_0001 <= logsToKeep < 0x1_0000_0000
    ensures RetainedNew(h, ToInt(logsToKeep)) == Flat(h.current)
    ensures InIntRange(ToInt(logsToKeep) - 1)
  {
    if h.closed != [] {
      assert h.closed[|h.closed|..] == [];
    }
  }

  /** A keep count of exactly 2^31 is the only one for which the loop's first index does not fit its type. */
  lemma KeepCountThatOverflows(logsToKeep: nat)
    requires logsToKeep < 0x1_0000_0000
    ensures !InIntRange(ToInt(logsToKeep) - 1) <==> logsToKeep == 0x8000_0000
  {
  }

  // ---------------------------------------------------------------- the sink

  /** The outcome of one system call that was asked to write some bytes. */
  datatype Outcome = Wrote(n: nat) | Interrupted | Failed

  /** The bytes the system calls take before the first of them that fails. */
  function UntilFailure(kernel: seq<Outcome>): nat
    decreases |kernel|
  {
    if kernel == [] || kernel[0].Failed? then 0
    else (if kernel[0].Wrote? then kernel[0].n else 0) + UntilFailure(kernel[1..])
  }

  lemma RestOfKernel(kernel: seq<Outcome>, i: nat)
    requires i < |kernel|
    ensures kernel[i].Failed? ==> UntilFailure(kernel[i..]) == 0 && Failed in kernel[i..]
    ensures !kernel[i].Failed? ==>
              && UntilFailure(kernel[i..])
                 == (if kernel[i].Wrote? then kernel[i].n else 0) + UntilFailure(kernel[i + 1..])
              && (Failed in kernel[i..] <==> Failed in kernel[i + 1..])
  {
    assert kernel[i..] == [kernel[i]] + kernel[i + 1..];
  }

  /** `unsigned` passed as `int`. */
  function ToInt(u: nat): int
    requires u < 0x1_0000_0000
  {
    if u < 0x8000_0000 then u else u - 0x1_0000_0000
  }

  predicate InIntRange(n: int) {
    -0x8000_0000 <= n < 0x8000_0000
  }

  ghost function WithRecord(h: History, record: Content, max: nat): History {
    var pieces := h.current + [Piece(record, true)];
    if Counted(pieces) < max then h.(current := pieces) else History(h.original, h.closed + [pieces], [])
  }

  lemma RecordCounts(h: History, record: Content, max: nat)
    requires record != [] && (Counted(h.current) < max || (max == 0 && Counted(h.current) == 0))
    ensures var pieces := h.current + [Piece(record, true)];
      && Counted(pieces) == Counted(h.current) + |record|
      && (Counted(pieces) >= max ==> ClosedInTime(pieces, max))
      && WithRecord(h, record, max)
         == (if Counted(pieces) < max then h.(current := pieces) else History(h.original, h.closed + [pieces], []))
    ensures Counted([]) == 0
  {
    var pieces := h.current + [Piece(record, true)];
    FlatAppend(h.current, Piece(record, true));
    assert pieces[..|pieces| - 1] == h.current;
  }

  lemma RecordIsNewBytes(h: History, record: Content, max: nat)
    ensures NewBytes(WithRecord(h, record, max)) == NewBytes(h) + record
  {
    assert Flat([]) == [];
    hide Counted, AllClosed, Flat;
    var pieces := h.current + [Piece(record, true)];
    FlatAppend(h.current, Piece(record, true));
    AllClosedSplit(h.closed, [pieces]);
    AllClosedOfOne(pieces);
    assert AllClosed(h.closed) + (Flat(h.current) + record) == NewBytes(h) + record;
  }

  lemma RecordKeepsBounded(h: History, record: Content, max: nat)
    requires Bounded(h, max) && record != []
    ensures Bounded(WithRecord(h, record, max), max)
  {
    RecordCounts(h, record, max);
    hide Counted, ClosedInTime, WithRecord;
  }

  lemma RemnantAdded(h: History, bytes: Content, max: nat)
    requires Bounded(h, max)
    ensures Bounded(WithRemnant(h, bytes), max) && Counted(WithRemnant(h, bytes).current) == Counted(h.current)
  {
    FlatAppend(h.current, Piece(bytes, false));
  }

  ghost function WithRemnant(h: History, bytes: Content): History {
    h.(current := h.current + [Piece(bytes, false)])
  }

  lemma DescribedHasLog(fs: Files, name: string, keep: int, h: History)
    requires Described(fs, name, keep, h)
    ensures name in fs
  {
  }

  lemma BoundedCurrent(h: History, max: nat)
    requires Bounded(h, max)
    ensures Counted(h.current) < max || (max == 0 && Counted(h.current) == 0)
  {
  }

  lemma NothingAdded(h: History)
    ensures NewBytes(h) == NewBytes(h) + []
  {
  }

  lemma RemnantIsNewBytes(h: History, bytes: Content)
    ensures NewBytes(WithRemnant(h, bytes)) == NewBytes(h) + bytes
  {
    FlatAppend(h.current, Piece(bytes, false));
    hide Flat, AllClosed;
    assert AllClosed(h.closed) + (Flat(h.current) + bytes) == AllClosed(h.closed) + Flat(h.current) + bytes;
  }

  /** A record as it comes from the formatter, whether the filter stops it, and how its system calls go. */
  datatype Formatted = Formatted(text: Content, filtered: bool, kernel: seq<Outcome>) {
    /** What of it reaches the log: nothing, all, or, when a system call fails in between, what was written by then. */
    ghost predicate Left(part: Content) {
      if filtered then part == []
      else if Failed in kernel && UntilFailure(kernel) < |text| then part == text[..UntilFailure(kernel)]
      else part == text
    }
  }

  function Joined(parts: seq<Content>): Content {
    if parts == [] then [] else Joined(parts[..|parts| - 1]) + parts[|parts| - 1]
  }

  lemma JoinedAppend(parts: seq<Content>, part: Content)
    ensures Joined(parts + [part]) == Joined(parts) + part
  {
    assert (parts + [part])[..|parts|] == parts;
  }

  ghost predicate Reached(records: seq<Formatted>, parts: seq<Content>) {
    |parts| == |records| && forall i | 0 <= i < |records| :: records[i].Left(parts[i])
  }

  class Sink {
    const fileName: string
    const keep: int
    const maxFileSize: nat
    var fs: Files
    var currentSize: nat
    ghost var history: History

    ghost predicate Valid()
      reads this
    {
      && Described(fs, fileName, keep, history)
      && Bounded(history, maxFileSize)
      && currentSize == Counted(history.current)
    }

    constructor (fileName: string, logsToKeep: nat, maxFileSize: nat, existing: Files)
      requires logsToKeep < 0x1_0000_0000
      ensures Valid() && history == History(existing, [], [])
      ensures this.fileName == fileName && this.keep == ToInt(logsToKeep) && this.maxFileSize == maxFileSize
      ensures logsToKeep < 0x8000_0000 ==> keep == logsToKeep
      ensures logsToKeep >= 0x8000_0000 ==> keep < 0
    {
      this.fileName, this.keep, this.maxFileSize := fileName, ToInt(logsToKeep), maxFileSize;
      new;
      var rotated := RotateLogs(existing, fileName, keep);
      fs := rotated[fileName := []];
      currentSize := 0;
      history := History(existing, [], []);
      StartIsDescribed(existing, rotated, fileName, keep);
    }

    /**
     * Writes one formatted record. `kernel` are the outcomes of the system calls: any interruptions and
     * short writes, possibly a failure; once they are used up the rest of the record is written at once.
     */
    method Write(formatted: Content, filtered: bool, kernel: seq<Outcome>) returns (ok: bool)
      requires Valid()
      modifies this
      ensures Valid()
      ensures ok && (filtered || formatted == []) ==> history == old(history) && fs == old(fs)
      ensures ok && !filtered && formatted != [] ==> history == WithRecord(old(history), formatted, maxFileSize)
      ensures ok && !filtered ==> NewBytes(history) == NewBytes(old(history)) + formatted
      ensures ok <==> filtered || Failed !in kernel || |formatted| <= UntilFailure(kernel)
      ensures !ok ==> UntilFailure(kernel) < |formatted|
                      && history == WithRemnant(old(history), formatted[..UntilFailure(kernel)])
    {
      hide Described, Bounded, Counted, Flat, NewBytes, WithRecord, UntilFailure;
      if filtered || |formatted| == 0 {
        NothingAdded(history);
        return true;
      }
      DescribedHasLog(fs, fileName, keep, history);
      var start := fs[fileName];
      var available := |formatted|;
      var written := 0;
      var call := 0;
      assert start + formatted[..0] == start && kernel[0..] == kernel;
      while written < available
        invariant 0 <= written <= available && 0 <= call <= |kernel|
        invariant fs == old(fs)[fileName := start + formatted[..written]]
        invariant history == old(history) && currentSize == old(currentSize)
        invariant written < available ==>
            && UntilFailure(kernel) == written + UntilFailure(kernel[call..])
            && (Failed in kernel <==> Failed in kernel[call..])
        invariant written == available ==> Failed !in kernel || available <= UntilFailure(kernel)
        decreases |kernel| - call, available - written
      {
        var outcome := if call < |kernel| then kernel[call] else Wrote(available - written);
        if call < |kernel| {
          RestOfKernel(kernel, call);
        }
        call := if call < |kernel| then call + 1 else call;
        match outcome {
          case Interrupted =>
          case Failed =>
            AppendKeepsDescription(old(fs), fileName, keep, history, Piece(formatted[..written], false));
            RemnantAdded(history, formatted[..written], maxFileSize);
            DescribedHasLog(old(fs), fileName, keep, history);
            history := WithRemnant(history, formatted[..written]);
            return false;
          case Wrote(n) =>
            var count := if n <= available - written then n else available - written;
            fs := fs[fileName := fs[fileName] + formatted[written..written + count]];
            assert start + formatted[..written] + formatted[written..written + count]
                == start + formatted[..written + count];
            written := written + count;
        }
      }
      assert formatted[..available] == formatted;
      ghost var pieces := history.current + [Piece(formatted, true)];
      DescribedHasLog(old(fs), fileName, keep, history);
      AppendKeepsDescription(old(fs), fileName, keep, history, Piece(formatted, true));
      BoundedCurrent(history, maxFileSize);
      RecordCounts(history, formatted, maxFileSize);
      RecordIsNewBytes(history, formatted, maxFileSize);
      RecordKeepsBounded(history, formatted, maxFileSize);
      currentSize := currentSize + written;
      if currentSize >= maxFileSize {
        var rotated := RotateLogs(fs, fileName, keep);
        RotationKeepsDescription(fs, rotated, fileName, keep, history.(current := pieces));
        fs := rotated[fileName := []];
        currentSize := 0;
      }
      history := WithRecord(history, formatted, maxFileSize);
      return true;
    }

    /** One record, and what of it reached the log. */
    method WriteOne(record: Formatted) returns (ghost part: Content)
      requires Valid()
      modifies this
      ensures Valid() && history.original == old(history.original)
      ensures record.Left(part) && NewBytes(history) == NewBytes(old(history)) + part
    {
      hide Described, Bounded, Counted, Flat, AllClosed, NewBytes;
      ghost var before := history;
      var ok := Write(record.text, record.filtered, record.kernel);
      if ok {
        RecordIsNewBytes(before, record.text, maxFileSize);
        NothingAdded(before);
        part := if record.filtered then [] else record.text;
      } else {
        part := record.text[..UntilFailure(record.kernel)];
        RemnantIsNewBytes(before, part);
      }
    }

    /**
     * A sink's life: any records, some filtered out, some cut short by a failed write. `parts` is what of
     * each reached the log. The files, read from the oldest, are a suffix of what was there before and all
     * the parts, and hold as much of the parts as the keep count and the limit promise.
     */
    method WriteAll(records: seq<Formatted>) returns (ghost parts: seq<Content>)
      requires Valid()
      modifies this
      ensures Valid() && history.original == old(history.original)
      ensures Reached(records, parts) && NewBytes(history) == NewBytes(old(history)) + Joined(parts)
      ensures IsSuffix(Chain(fs, fileName, Kept(keep) - 1),
                       Chain(old(history.original), fileName, Kept(keep) - 1)
                       + (NewBytes(old(history)) + Joined(parts)))
      ensures || |RetainedNew(history, keep)| == |NewBytes(history)|
              || |RetainedNew(history, keep)| >= Kept(keep) * maxFileSize
    {
      hide Described, Bounded, Counted, Flat, AllClosed, NewBytes, RetainedNew, Chain;
      parts := [];
      NothingAdded(history);
      for i := 0 to |records|
        invariant Valid() && history.original == old(history.original)
        invariant Reached(records[..i], parts)
        invariant NewBytes(history) == NewBytes(old(history)) + Joined(parts)
      {
        ghost var part := WriteOne(records[i]);
        assert records[..i + 1] == records[..i] + [records[i]];
        JoinedAppend(parts, part);
        assert NewBytes(old(history)) + (Joined(parts) + part) == NewBytes(old(history)) + Joined(parts) + part;
        parts := parts + [part];
      }
      assert records[..|records|] == records;
      ChainIsSuffix(fs, fileName, keep, history);
      RetainsEnough(history, keep, maxFileSize);
    }
  }

  /** The last closed files are under the first numbers, the newest under 0; then come the files from before. */
  ghost predicate FilesInPlace(fs: Files, name: string, existing: Files, h: History, k: nat) {
    && name in fs && fs[name] == Flat(h.current)
    && (forall i: nat | i < k && i < |h.closed| ::
          Numbered(name, i) in fs && fs[Numbered(name, i)] == Flat(h.closed[|h.closed| - 1 - i]))
    && (forall i: nat | |h.closed| <= i < k ::
          Moved(existing, fs, Numbered(name, i - 1 - |h.closed|), Numbered(name, i)))
  }

  /** `name.(k-1)` to the log are the end of all there was and came; they hold all of what came, or `k` times `max`. */
  ghost predicate ChainKeeps(fs: Files, name: string, existing: Files, bytes: Content, k: nat, max: nat) {
    && IsSuffix(Chain(fs, name, k - 1), Chain(existing, name, k - 1) + bytes)
    && (|Chain(fs, name, k - 1)| >= |bytes| || |Chain(fs, name, k - 1)| >= k * max)
  }

  lemma DescribedInPlace(fs: Files, name: string, keep: int, h: History)
    requires Described(fs, name, keep, h)
    ensures FilesInPlace(fs, name, h.original, h, Kept(keep))
  {
    hide Flat, InChain, Moved, Numbered;
    var n := |h.closed|;
    forall i: nat | i < Kept(keep)
      ensures i < n ==> Numbered(name, i) in fs && fs[Numbered(name, i)] == Flat(h.closed[n - 1 - i])
      ensures n <= i ==> Moved(h.original, fs, Numbered(name, i - 1 - n), Numbered(name, i))
    {
      assert Placed(fs, name, h, i);
    }
  }

  /**
   * A sink from its construction on, in terms of the keep count it was given: with a count `k` below 2^31
   * the last `k` closed files are kept, and the chain from `name.(k-1)` to the log is a suffix of the
   * previous chain and everything written since, of which it holds all, or at least `k` times the limit.
   * A larger count acts as zero.
   */
  method SinkLife(name: string, logsToKeep: nat, maxFileSize: nat, existing: Files, records: seq<Formatted>)
    returns (sink: Sink, ghost parts: seq<Content>)
    requires logsToKeep < 0x1_0000_0000
    ensures Reached(records, parts)
    ensures sink.Valid() && NewBytes(sink.history) == Joined(parts)
    ensures var k := if logsToKeep < 0x8000_0000 then logsToKeep else 0;
      && FilesInPlace(sink.fs, name, existing, sink.history, k)
      && ChainKeeps(sink.fs, name, existing, Joined(parts), k, maxFileSize)
  {
    sink := new Sink(name, logsToKeep, maxFileSize, existing);
    NothingNew(existing);
    hide Described, Bounded, Counted, Flat, AllClosed, NewBytes, RetainedNew, Chain, FilesInPlace, IsSuffix, Reached;
    hide ChainKeeps;
    parts := sink.WriteAll(records);
    assert [] + Joined(parts) == Joined(parts);
    KeptAndInPlace(sink.fs, name, sink.keep, sink.history, maxFileSize);
  }

  lemma KeptAndInPlace(fs: Files, name: string, keep: int, h: History, max: nat)
    requires Described(fs, name, keep, h) && Bounded(h, max)
    ensures var k := Kept(keep);
      && FilesInPlace(fs, name, h.original, h, k)
      && ChainKeeps(fs, name, h.original, NewBytes(h), k, max)
  {
    ChainIsSuffix(fs, name, keep, h);
    RetainsEnough(h, keep, max);
    DescribedInPlace(fs, name, keep, h);
    hide Described, Bounded, Counted, AllClosed, Flat, NewBytes, RetainedNew, Chain, FilesInPlace, IsSuffix;
  }

  lemma NothingNew(existing: Files)
    ensures NewBytes(History(existing, [], [])) == []
  {
  }
}
