/**
 * The text segmenter `smart_split_text`: the text is normalised (CRLF to LF,
 * stripped), the bound is clamped to at least 300 characters, and a cursor walks
 * left to right, cutting each full window after its last newline, else after its
 * last sentence break, else after its last space, else at the window's end.
 * Each consumed slice is stripped and kept when non-empty.
 */
module Segmenter {
  import opened Text

  /** The floor the chunk bound is clamped to. */
  const MinChars: nat := 300

  /** `max(300, int(max_chars))`. */
  function Bound(maxChars: int): (m: nat)
    ensures m >= MinChars && m >= maxChars
    ensures m == MinChars || m == maxChars
  {
    if maxChars < MinChars then MinChars else maxChars
  }

  /** The text the segmenter works on: CRLF rewritten to LF, then stripped. */
  function Normalize(text: string): string {
    Strip(ReplaceCRLF(text))
  }

  predicate IsSentenceBreak(c: char) {
    c == '.' || c == '!' || c == '?' || c == ';' || c == ':'
  }

  /** `int(max_chars * 0.60)`, taken as the exact floor of `60 m / 100`. */
  function NewlineFloor(m: nat): nat {
    m * 60 / 100
  }

  /** `int(max_chars * 0.55)`, taken as the exact floor of `55 m / 100`. */
  function BreakFloor(m: nat): nat {
    m * 55 / 100
  }

  /** Some position `k` with `lo <= k < hi` holds `c`. */
  predicate HasIn(s: string, c: char, lo: nat, hi: nat) {
    exists k :: lo <= k < hi && k < |s| && s[k] == c
  }

  /** Some position `k` with `lo <= k < hi` holds a sentence break. */
  predicate HasBreakIn(s: string, lo: nat, hi: nat) {
    exists k :: lo <= k < hi && k < |s| && IsSentenceBreak(s[k])
  }

  /** The last position `k` with `lo <= k < hi` holding a sentence break, or -1. */
  function LastBreakIn(s: string, lo: nat, hi: nat): (r: int)
    requires hi <= |s|
    ensures r == -1 || (lo <= r < hi && IsSentenceBreak(s[r]))
    decreases hi
  {
    if hi <= lo then -1
    else if IsSentenceBreak(s[hi - 1]) then hi - 1
    else LastBreakIn(s, lo, hi - 1)
  }

  /** No sentence break in `[lo, hi)` lies after the position `LastBreakIn` returns. */
  lemma {:induction false} LastBreakInIsLast(s: string, lo: nat, hi: nat)
    requires hi <= |s|
    ensures forall k :: lo <= k < hi && LastBreakIn(s, lo, hi) < k ==> !IsSentenceBreak(s[k])
    decreases hi
  {
    if hi > lo && !IsSentenceBreak(s[hi - 1]) {
      LastBreakInIsLast(s, lo, hi - 1);
    }
  }

  /** Searching a slice for a sentence break is searching the whole, shifted by the slice's start. */
  lemma {:induction false} LastBreakInShift(s: string, i: nat, j: nat, lo: nat, hi: nat)
    requires i <= j <= |s| && hi <= j - i
    ensures var r := LastBreakIn(s[i..j], lo, hi);
      LastBreakIn(s, i + lo, i + hi) == if r < 0 then -1 else i + r
    decreases hi
  {
    if hi > lo && !IsSentenceBreak(s[i..j][hi - 1]) {
      LastBreakInShift(s, i, j, lo, hi - 1);
    }
  }

  /**
   * The cut of the full window `s[i:i+m]`, counted from `i`: after the window's
   * last newline when that lies at or after 60% of the bound; else after the last
   * sentence break above 55%; else after the last space at or after 55%; else `m`.
   */
  function CutAt(s: string, i: nat, m: nat): (cut: nat)
    requires m > 0 && i + m <= |s|
    ensures 1 <= cut <= m
  {
    var nl := RFindIn(s, '\n', i, i + m);
    if nl >= i + NewlineFloor(m) then nl - i + 1
    else
      var b := LastBreakIn(s, i + BreakFloor(m) + 1, i + m);
      if b >= 0 then b - i + 1
      else
        var sp := RFindIn(s, ' ', i, i + m);
        if sp >= i + BreakFloor(m) then sp - i + 1 else m
  }

  /**
   * The cut follows a fixed priority: just after the window's last newline when
   * one lies at or after 60% of the bound; else just after the last sentence
   * break lying above 55%; else just after the last space at or after 55%; else
   * at the window's end. Nothing of the chosen kind lies after the cut.
   */
  lemma CutAtPriority(s: string, i: nat, m: nat)
    requires m > 0 && i + m <= |s|
    ensures var cut := CutAt(s, i, m); var nf := i + NewlineFloor(m); var bf := i + BreakFloor(m);
      && (HasIn(s, '\n', nf, i + m) ==>
            nf < i + cut && s[i + cut - 1] == '\n' && forall k :: i + cut <= k < i + m ==> s[k] != '\n')
      && (!HasIn(s, '\n', nf, i + m) && HasBreakIn(s, bf + 1, i + m) ==>
            bf + 1 < i + cut && IsSentenceBreak(s[i + cut - 1])
            && forall k :: i + cut <= k < i + m ==> !IsSentenceBreak(s[k]))
      && (!HasIn(s, '\n', nf, i + m) && !HasBreakIn(s, bf + 1, i + m) && HasIn(s, ' ', bf, i + m) ==>
            bf < i + cut && s[i + cut - 1] == ' ' && forall k :: i + cut <= k < i + m ==> s[k] != ' ')
      && (!HasIn(s, '\n', nf, i + m) && !HasBreakIn(s, bf + 1, i + m) && !HasIn(s, ' ', bf, i + m) ==>
            cut == m)
  {
    var nf := i + NewlineFloor(m);
    var bf := i + BreakFloor(m);
    if HasIn(s, '\n', nf, i + m) {
      CutAtNewline(s, i, m);
    } else if HasBreakIn(s, bf + 1, i + m) {
      CutAtBreak(s, i, m);
    } else if HasIn(s, ' ', bf, i + m) {
      CutAtSpace(s, i, m);
    } else {
      CutAtHard(s, i, m);
    }
  }

  lemma CutAtNewline(s: string, i: nat, m: nat)
    requires m > 0 && i + m <= |s|
    requires HasIn(s, '\n', i + NewlineFloor(m), i + m)
    ensures var cut := CutAt(s, i, m);
      i + NewlineFloor(m) < i + cut && s[i + cut - 1] == '\n'
      && forall k :: i + cut <= k < i + m ==> s[k] != '\n'
  {
    RFindInLast(s, '\n', i, i + m);
  }

  lemma CutAtBreak(s: string, i: nat, m: nat)
    requires m > 0 && i + m <= |s|
    requires !HasIn(s, '\n', i + NewlineFloor(m), i + m)
    requires HasBreakIn(s, i + BreakFloor(m) + 1, i + m)
    ensures var cut := CutAt(s, i, m);
      i + BreakFloor(m) + 1 < i + cut && IsSentenceBreak(s[i + cut - 1])
      && forall k :: i + cut <= k < i + m ==> !IsSentenceBreak(s[k])
  {
    var nl := RFindIn(s, '\n', i, i + m);
    assert nl < i + NewlineFloor(m);
    LastBreakInIsLast(s, i + BreakFloor(m) + 1, i + m);
  }

  lemma CutAtSpace(s: string, i: nat, m: nat)
    requires m > 0 && i + m <= |s|
    requires !HasIn(s, '\n', i + NewlineFloor(m), i + m)
    requires !HasBreakIn(s, i + BreakFloor(m) + 1, i + m)
    requires HasIn(s, ' ', i + BreakFloor(m), i + m)
    ensures var cut := CutAt(s, i, m);
      i + BreakFloor(m) < i + cut && s[i + cut - 1] == ' '
      && forall k :: i + cut <= k < i + m ==> s[k] != ' '
  {
    var nl := RFindIn(s, '\n', i, i + m);
    assert nl < i + NewlineFloor(m);
    var b := LastBreakIn(s, i + BreakFloor(m) + 1, i + m);
    assert b < 0;
    RFindInLast(s, ' ', i, i + m);
  }

  lemma CutAtHard(s: string, i: nat, m: nat)
    requires m > 0 && i + m <= |s|
    requires !HasIn(s, '\n', i + NewlineFloor(m), i + m)
    requires !HasBreakIn(s, i + BreakFloor(m) + 1, i + m)
    requires !HasIn(s, ' ', i + BreakFloor(m), i + m)
    ensures CutAt(s, i, m) == m
  {
    var nl := RFindIn(s, '\n', i, i + m);
    assert nl < i + NewlineFloor(m);
    var b := LastBreakIn(s, i + BreakFloor(m) + 1, i + m);
    assert b < 0;
    var sp := RFindIn(s, ' ', i, i + m);
    assert sp < i + BreakFloor(m);
  }

  /** The cut of a window taken out of `s` is the cut at the window's start in `s`. */
  lemma CutAtShift(s: string, i: nat, m: nat)
    requires m > 0 && i + m <= |s|
    ensures CutAt(s[i..i + m], 0, m) == CutAt(s, i, m)
  {
    RFindInShift(s, '\n', i, i + m, 0, m);
    LastBreakInShift(s, i, i + m, BreakFloor(m) + 1, m);
    RFindInShift(s, ' ', i, i + m, 0, m);
  }

  /** The slices `s[i:i+cut]` the cursor consumes from position `i` on, in order. */
  function Slices(s: string, i: nat, m: nat): seq<string>
    requires i <= |s| && m > 0
    decreases |s| - i
  {
    if i == |s| then []
    else if i + m >= |s| then [s[i..]]
    else
      var cut := CutAt(s, i, m);
      [s[i..i + cut]] + Slices(s, i + cut, m)
  }

  /** Each slice stripped, the empty ones dropped. */
  function Kept(slices: seq<string>): seq<string> {
    if slices == [] then []
    else (if Strip(slices[0]) == [] then [] else [Strip(slices[0])]) + Kept(slices[1..])
  }

  /** What `smart_split_text(text, max_chars)` returns. */
  function Segment(text: string, maxChars: int): seq<string> {
    Kept(Slices(Normalize(text), 0, Bound(maxChars)))
  }

  lemma {:induction false} KeptAppend(a: seq<string>, b: seq<string>)
    ensures Kept(a + b) == Kept(a) + Kept(b)
    decreases |a|
  {
    if a == [] {
      assert a + b == b;
    } else {
      var h := if Strip(a[0]) == [] then [] else [Strip(a[0])];
      assert (a + b)[0] == a[0] && (a + b)[1..] == a[1..] + b;
      assert Kept(a + b) == h + Kept(a[1..] + b);
      KeptAppend(a[1..], b);
      AppendAssoc(h, Kept(a[1..]), Kept(b));
    }
  }

  /** The body of one iteration of the cursor loop: the cut chosen for a full window. */
  method FindCut(window: string, m: nat) returns (cut: nat)
    requires |window| == m > 0
    ensures cut == CutAt(window, 0, m)
  {
    var c := -1;

    var nl := RFind(window, '\n');
    if nl >= NewlineFloor(m) {
      c := nl + 1;
    }

    if c == -1 {
      var k := |window| - 1;
      while k > BreakFloor(m)
        invariant 0 <= k < |window|
        invariant forall j :: k < j < |window| ==> !IsSentenceBreak(window[j])
        decreases k
      {
        if IsSentenceBreak(window[k]) {
          c := k + 1;
          break;
        }
        k := k - 1;
      }
      var b := LastBreakIn(window, BreakFloor(m) + 1, |window|);
      LastBreakInIsLast(window, BreakFloor(m) + 1, |window|);
      assert c == -1 ==> b == -1;
      assert c != -1 ==> c == b + 1;
    }

    if c == -1 {
      var sp := RFind(window, ' ');
      if sp >= BreakFloor(m) {
        c := sp + 1;
      }
    }

    if c == -1 {
      c := |window|;
    }
    cut := c;
  }

  /** `smart_split_text`: the cursor loop, with the backward scan for a sentence break. */
  method SmartSplitText(text: string, maxChars: int) returns (chunks: seq<string>)
    ensures chunks == Segment(text, maxChars)
  {
    var s := Strip(ReplaceCRLF(text));
    var m := Bound(maxChars);
    if s == [] {
      return [];
    }
    chunks := SplitNormalized(s, m);
  }

  /** The cursor loop of `smart_split_text`, run over text already normalized. */
  method SplitNormalized(s: string, m: nat) returns (chunks: seq<string>)
    requires m > 0
    ensures chunks == Kept(Slices(s, 0, m))
  {
    ghost var all := Kept(Slices(s, 0, m));
    chunks := [];
    assert chunks + all == all;
    var i: nat := 0;
    var n := |s|;
    while i < n
      invariant i <= n
      invariant all == chunks + ChunksFrom(s, i, m)
      decreases n - i
    {
      if i + m >= n {
        chunks := TakeLast(s, i, m, chunks, all);
        break;
      }
      chunks, i := TakeWindow(s, i, m, chunks, all);
    }
  }

  /** The last window `s[i:]`, stripped, is the last chunk when it is not blank. */
  method TakeLast(s: string, i: nat, m: nat, before: seq<string>, ghost all: seq<string>) returns (after: seq<string>)
    requires m > 0 && i < |s| && i + m >= |s|
    requires all == before + ChunksFrom(s, i, m)
    ensures all == after
  {
    var chunk := Strip(s[i..|s|]);
    after := before;
    if chunk != [] {
      after := before + [chunk];
    }
    Finish(s, i, m, chunk, before, after, all);
  }

  /** A full window: cut it, keep the stripped slice when it is not blank, and move the cursor past the cut. */
  method TakeWindow(s: string, i: nat, m: nat, before: seq<string>, ghost all: seq<string>) returns (after: seq<string>, next: nat)
    requires m > 0 && i + m < |s|
    requires all == before + ChunksFrom(s, i, m)
    ensures i < next <= |s|
    ensures all == after + ChunksFrom(s, next, m)
  {
    var window := s[i..i + m];
    var cut := FindCut(window, m);
    CutAtShift(s, i, m);
    var chunk := Strip(s[i..i + cut]);
    after := before;
    if chunk != [] {
      after := before + [chunk];
    }
    next := i + cut;
    Advance(s, i, m, cut, next, chunk, before, after, all);
  }

  /** The chunks still to come once the cursor stands at `i`. */
  function ChunksFrom(s: string, i: nat, m: nat): seq<string>
    requires i <= |s| && m > 0
  {
    Kept(Slices(s, i, m))
  }

  lemma Advance(s: string, i: nat, m: nat, cut: nat, next: nat, chunk: string,
                before: seq<string>, after: seq<string>, all: seq<string>)
    requires m > 0 && i + m < |s| && cut == CutAt(s, i, m) && next == i + cut
    requires chunk == Strip(s[i..i + cut])
    requires after == if chunk == [] then before else before + [chunk]
    requires all == before + ChunksFrom(s, i, m)
    ensures next <= |s|
    ensures all == after + ChunksFrom(s, next, m)
  {
    ChunksStep(s, i, m, cut, next);
    KeepOne(before, chunk, after, ChunksFrom(s, next, m), all);
  }

  /** From a full window, the chunks to come are the window's slice, stripped if not blank, then those after the cut. */
  lemma ChunksStep(s: string, i: nat, m: nat, cut: nat, next: nat)
    requires m > 0 && i + m < |s| && cut == CutAt(s, i, m) && next == i + cut
    ensures next <= |s|
    ensures ChunksFrom(s, i, m)
      == (if Strip(s[i..i + cut]) == [] then [] else [Strip(s[i..i + cut])]) + ChunksFrom(s, next, m)
  {
    SlicesStep(s, i, m, cut);
    var piece := s[i..i + cut];
    var rest := Slices(s, next, m);
    KeptAppend([piece], rest);
    KeptSingle(piece);
  }

  /** Keeping the next chunk (or dropping it when blank) moves it from the chunks to come to those kept. */
  lemma KeepOne(before: seq<string>, chunk: string, after: seq<string>, rest: seq<string>, all: seq<string>)
    requires after == if chunk == [] then before else before + [chunk]
    requires all == before + ((if chunk == [] then [] else [chunk]) + rest)
    ensures all == after + rest
  {
    if chunk == [] {
      assert [] + rest == rest;
    } else {
      AppendAssoc(before, [chunk], rest);
    }
  }

  lemma Finish(s: string, i: nat, m: nat, chunk: string, before: seq<string>, after: seq<string>, all: seq<string>)
    requires m > 0 && i < |s| && i + m >= |s|
    requires chunk == Strip(s[i..|s|])
    requires after == if chunk == [] then before else before + [chunk]
    requires all == before + ChunksFrom(s, i, m)
    ensures all == after
  {
    FinalSliceKept(s, i, m);
    if chunk == [] {
      assert before + [] == before;
    }
  }

  lemma SlicesStep(s: string, i: nat, m: nat, cut: nat)
    requires m > 0 && i + m < |s| && cut == CutAt(s, i, m)
    ensures i + cut <= |s|
    ensures Slices(s, i, m) == [s[i..i + cut]] + Slices(s, i + cut, m)
  {
  }

  lemma KeptSingle(x: string)
    ensures Kept([x]) == if Strip(x) == [] then [] else [Strip(x)]
  {
    assert [x][1..] == [];
  }

  lemma AppendAssoc<T>(a: seq<T>, b: seq<T>, c: seq<T>)
    ensures (a + b) + c == a + (b + c)
  {
  }

  lemma FinalSliceKept(s: string, i: nat, m: nat)
    requires i < |s| && m > 0 && i + m >= |s|
    ensures Kept(Slices(s, i, m)) == if Strip(s[i..|s|]) == [] then [] else [Strip(s[i..|s|])]
  {
    assert s[i..] == s[i..|s|];
    assert Slices(s, i, m) == [s[i..]];
    assert Kept([s[i..]]) == (if Strip(s[i..]) == [] then [] else [Strip(s[i..])]) + Kept([]);
  }

  /** The slices concatenate back to `s[i..]`: nothing is lost, repeated or reordered. */
  lemma {:induction false} SlicesFlatten(s: string, i: nat, m: nat)
    requires i <= |s| && m > 0
    ensures Flatten(Slices(s, i, m)) == s[i..]
    decreases |s| - i
  {
    if i + m >= |s| {
      SlicesFlattenLast(s, i, m);
    } else {
      var cut := CutAt(s, i, m);
      SlicesFlatten(s, i + cut, m);
      SlicesFlattenStep(s, i, m, cut);
    }
  }

  /** One cut: if the slices after the cut rebuild the rest, the slices from `i` rebuild `s[i..]`. */
  lemma SlicesFlattenStep(s: string, i: nat, m: nat, cut: nat)
    requires m > 0 && i + m < |s| && cut == CutAt(s, i, m)
    requires Flatten(Slices(s, i + cut, m)) == s[i + cut..]
    ensures Flatten(Slices(s, i, m)) == s[i..]
  {
    SlicesStep(s, i, m, cut);
    FlattenPiece(s, i, i + cut, Slices(s, i + cut, m));
  }

  /** The last window is taken whole. */
  lemma SlicesFlattenLast(s: string, i: nat, m: nat)
    requires i <= |s| && m > 0 && i + m >= |s|
    ensures Flatten(Slices(s, i, m)) == s[i..]
  {
    if i < |s| {
      FlattenSingle(s[i..]);
    }
  }

  /** A piece `s[i..j]` followed by pieces that rebuild `s[j..]` rebuilds `s[i..]`. */
  lemma FlattenPiece(s: string, i: nat, j: nat, rest: seq<string>)
    requires i <= j <= |s| && Flatten(rest) == s[j..]
    ensures Flatten([s[i..j]] + rest) == s[i..]
  {
    FlattenCons(s[i..j], rest);
    SplitSuffix(s, i, j);
  }

  /** Every slice is non-empty and at most `m` long. */
  lemma {:induction false} SlicesBounded(s: string, i: nat, m: nat)
    requires i <= |s| && m > 0
    ensures forall k :: 0 <= k < |Slices(s, i, m)| ==> 0 < |Slices(s, i, m)[k]| <= m
    decreases |s| - i
  {
    if i < |s| && i + m < |s| {
      var cut := CutAt(s, i, m);
      SlicesStep(s, i, m, cut);
      SlicesBounded(s, i + cut, m);
    }
  }

  lemma FlattenSingle(x: string)
    ensures Flatten([x]) == x
  {
    assert [x][1..] == [];
  }

  lemma FlattenCons(x: string, rest: seq<string>)
    ensures Flatten([x] + rest) == x + Flatten(rest)
  {
    assert ([x] + rest)[1..] == rest;
  }

  lemma SplitSuffix(s: string, i: nat, j: nat)
    requires i <= j <= |s|
    ensures s[i..] == s[i..j] + s[j..]
  {
  }

  /** A chunk as the segmenter emits it: non-empty, no whitespace at either end, at most `m` long. */
  predicate ChunkShaped(c: string, m: nat) {
    c != [] && !IsSpace(c[0]) && !IsSpace(c[|c| - 1]) && |c| <= m
  }

  /** Every kept chunk is non-empty, has no whitespace at either end, and is no longer than its slice's bound. */
  lemma {:induction false} KeptShape(slices: seq<string>, m: nat)
    requires forall k :: 0 <= k < |slices| ==> |slices[k]| <= m
    ensures forall k :: 0 <= k < |Kept(slices)| ==> ChunkShaped(Kept(slices)[k], m)
  {
    if slices != [] {
      var x := slices[0];
      var head := if Strip(x) == [] then [] else [Strip(x)];
      var tail := Kept(slices[1..]);
      assert Kept(slices) == head + tail;
      assert forall k :: 0 <= k < |head| ==> ChunkShaped(head[k], m);
      KeptShape(slices[1..], m);
      AppendShaped(head, tail, m);
    }
  }

  lemma AppendShaped(a: seq<string>, b: seq<string>, m: nat)
    requires forall k :: 0 <= k < |a| ==> ChunkShaped(a[k], m)
    requires forall k :: 0 <= k < |b| ==> ChunkShaped(b[k], m)
    ensures forall k :: 0 <= k < |a + b| ==> ChunkShaped((a + b)[k], m)
  {
  }


  /**
   * The consumed slices, in order, concatenate exactly to the normalised text;
   * each is non-empty and at most the clamped bound long; and the chunks are
   * those slices stripped, the empty ones dropped.
   */
  lemma SegmentReconstructs(text: string, maxChars: int)
    ensures var s := Normalize(text); var sl := Slices(s, 0, Bound(maxChars));
      && Flatten(sl) == s
      && (forall k :: 0 <= k < |sl| ==> 0 < |sl[k]| <= Bound(maxChars))
      && Segment(text, maxChars) == Kept(sl)
  {
    SlicesFlatten(Normalize(text), 0, Bound(maxChars));
    SlicesBounded(Normalize(text), 0, Bound(maxChars));
    assert Normalize(text)[0..] == Normalize(text);
  }

  /** Every chunk is non-empty, carries no surrounding whitespace and is at most `max(300, max_chars)` long. */
  lemma SegmentChunksBounded(text: string, maxChars: int)
    ensures forall k :: 0 <= k < |Segment(text, maxChars)| ==>
      var c := Segment(text, maxChars)[k];
      c != [] && Strip(c) == c && |c| <= Bound(maxChars)
  {
    var s := Normalize(text);
    var m := Bound(maxChars);
    SlicesBounded(s, 0, m);
    KeptShape(Slices(s, 0, m), m);
    forall k | 0 <= k < |Segment(text, maxChars)|
      ensures Strip(Segment(text, maxChars)[k]) == Segment(text, maxChars)[k]
    {
      var c := Segment(text, maxChars)[k];
      assert TrimLeft(c, Whitespace) == c;
      assert TrimRight(c, Whitespace) == c;
    }
  }

  /** The CRLF rewrite neither creates nor removes non-whitespace. */
  lemma ReplaceCRLFKeepsBlankness(text: string)
    ensures AllSpace(ReplaceCRLF(text)) <==> AllSpace(text)
  {
    var r := ReplaceCRLF(text);
    if AllSpace(text) {
      forall k | 0 <= k < |r| ensures IsSpace(r[k]) {
        assert r[k] in text;
      }
    }
    if AllSpace(r) {
      forall k | 0 <= k < |text| ensures IsSpace(text[k]) {
        assert text[k] in r || text[k] == '\r';
      }
    }
  }

  /** The segmenter returns no chunk exactly when the text is empty or whitespace only. */
  lemma SegmentEmptyIffBlank(text: string, maxChars: int)
    ensures Segment(text, maxChars) == [] <==> AllSpace(text)
  {
    ReplaceCRLFKeepsBlankness(text);
    var s := Normalize(text);
    var m := Bound(maxChars);
    if s != [] {
      var sl := Slices(s, 0, m);
      var first := if m >= |s| then s else s[..CutAt(s, 0, m)];
      assert sl[0] == first;
      assert first[0] == s[0];
      assert !AllSpace(first);
    }
  }
}
