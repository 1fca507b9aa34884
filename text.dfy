/**
 * String helpers shared by the segmenter, the file-name helpers and the job
 * controller: Python's whitespace class, `strip`, the CRLF rewrite, `splitlines`
 * for '\n'-separated text, decimal rendering of integers and sequence flattening.
 */
module Text {

  /** Python's `str.isspace()`, which is also what `\s` matches in a `str` pattern. */
  predicate IsSpace(c: char) {
    ('\t' <= c <= '\r') || ('\U{001C}' <= c <= ' ') || c == '\U{0085}' || c == '\U{00A0}'
    || c == '\U{1680}' || ('\U{2000}' <= c <= '\U{200A}') || c == '\U{2028}' || c == '\U{2029}'
    || c == '\U{202F}' || c == '\U{205F}' || c == '\U{3000}'
  }

  predicate AllSpace(s: string) {
    forall k :: 0 <= k < |s| ==> IsSpace(s[k])
  }

  /** The two character sets the program strips: whitespace (`strip()`) and " ." (`strip(" .")`). */
  datatype CharSet = Whitespace | SpaceOrDot

  predicate Drops(set_: CharSet, c: char) {
    match set_
    case Whitespace => IsSpace(c)
    case SpaceOrDot => c == ' ' || c == '.'
  }

  /** `s.lstrip(chars)`, with `chars` given by `cs`; `TrimLeftSpec` states what it yields. */
  function TrimLeft(s: string, cs: CharSet): (r: string)
    ensures |r| <= |s|
  {
    if s != [] && Drops(cs, s[0]) then TrimLeft(s[1..], cs) else s
  }

  /** `lstrip` removes a prefix of characters of `cs`, and stops at the first other one. */
  lemma {:induction false} TrimLeftSpec(s: string, cs: CharSet)
    ensures TrimLeft(s, cs) == s[|s| - |TrimLeft(s, cs)|..]
    ensures forall k :: 0 <= k < |s| - |TrimLeft(s, cs)| ==> Drops(cs, s[k])
    ensures TrimLeft(s, cs) != [] ==> !Drops(cs, TrimLeft(s, cs)[0])
    decreases |s|
  {
    if s != [] && Drops(cs, s[0]) {
      TrimLeftSpec(s[1..], cs);
    }
  }

  /** `s.rstrip(chars)`, with `chars` given by `cs`; `TrimRightSpec` states what it yields. */
  function TrimRight(s: string, cs: CharSet): (r: string)
    ensures |r| <= |s|
  {
    if s != [] && Drops(cs, s[|s| - 1]) then TrimRight(s[..|s| - 1], cs) else s
  }

  /** `rstrip` removes a suffix of characters of `cs`, and stops at the last other one. */
  lemma {:induction false} TrimRightSpec(s: string, cs: CharSet)
    ensures TrimRight(s, cs) == s[..|TrimRight(s, cs)|]
    ensures forall k :: |TrimRight(s, cs)| <= k < |s| ==> Drops(cs, s[k])
    ensures TrimRight(s, cs) != [] ==> !Drops(cs, TrimRight(s, cs)[|TrimRight(s, cs)| - 1])
    decreases |s|
  {
    if s != [] && Drops(cs, s[|s| - 1]) {
      TrimRightSpec(s[..|s| - 1], cs);
    }
  }

  /** `s.strip(chars)`: a contiguous piece of `s`, empty exactly when every character is stripped. */
  function StripBy(s: string, cs: CharSet): (r: string)
    ensures |r| <= |s|
    ensures r == [] <==> forall k :: 0 <= k < |s| ==> Drops(cs, s[k])
    ensures r != [] ==> !Drops(cs, r[0]) && !Drops(cs, r[|r| - 1])
  {
    StripBySpec(s, cs);
    TrimRight(TrimLeft(s, cs), cs)
  }

  lemma StripBySpec(s: string, cs: CharSet)
    ensures var r := TrimRight(TrimLeft(s, cs), cs);
      && (r == [] <==> forall k :: 0 <= k < |s| ==> Drops(cs, s[k]))
      && (r != [] ==> !Drops(cs, r[0]) && !Drops(cs, r[|r| - 1]))
  {
    var l := TrimLeft(s, cs);
    var r := TrimRight(l, cs);
    var a := |s| - |l|;
    TrimLeftSpec(s, cs);
    TrimRightSpec(l, cs);
    assert forall k :: a <= k < |s| ==> s[k] == l[k - a];
    if r == [] {
      // A non-empty `l` starts with a kept character, which `rstrip` cannot remove.
      assert l == [];
    } else {
      assert r[0] == l[0];
    }
    if l != [] {
      assert l[0] == s[a];
    }
  }

  /** `s.strip()` with no argument: empty exactly on blank text, and otherwise neither end is whitespace. */
  function Strip(s: string): (r: string)
    ensures |r| <= |s|
    ensures r == [] <==> AllSpace(s)
    ensures r != [] ==> !IsSpace(r[0]) && !IsSpace(r[|r| - 1])
  {
    StripBy(s, Whitespace)
  }

  /** What `strip(chars)` keeps is the piece of `s` starting where `lstrip` stopped. */
  lemma StripByInfix(s: string, cs: CharSet)
    ensures var a := |s| - |TrimLeft(s, cs)|;
      a + |StripBy(s, cs)| <= |s| && StripBy(s, cs) == s[a..a + |StripBy(s, cs)|]
  {
    var l := TrimLeft(s, cs);
    TrimLeftSpec(s, cs);
    TrimRightSpec(l, cs);
  }

  /** A string whose ends are kept is left as it is by `strip(chars)`. */
  lemma StripByNoop(s: string, cs: CharSet)
    requires s != [] ==> !Drops(cs, s[0]) && !Drops(cs, s[|s| - 1])
    ensures StripBy(s, cs) == s
  {
    assert TrimLeft(s, cs) == s;
    assert TrimRight(s, cs) == s;
  }

  /** Stripping twice strips nothing more. */
  lemma StripIdempotent(s: string)
    ensures Strip(Strip(s)) == Strip(s)
  {
    StripByNoop(Strip(s), Whitespace);
  }

  /** `re.sub(r"\r\n", "\n", s)`: each "\r\n" met scanning left to right becomes "\n". */
  function ReplaceCRLF(s: string): (r: string)
    ensures |r| <= |s|
    ensures forall c :: c in r ==> c in s
    ensures forall c :: c in s ==> c in r || c == '\r'
    ensures '\r' !in s ==> r == s
  {
    if |s| >= 2 && s[0] == '\r' && s[1] == '\n' then
      var rest := ReplaceCRLF(s[2..]);
      assert forall c :: c in s ==> c == '\r' || c == '\n' || c in s[2..];
      "\n" + rest
    else if s == [] then []
    else
      var rest := ReplaceCRLF(s[1..]);
      assert forall c :: c in s ==> c == s[0] || c in s[1..];
      [s[0]] + rest
  }

  /**
   * Each "\r\n" becomes "\n" and every other character is kept, in order: the
   * rewrite of `a + "\r\n" + b` is the rewrite of `a`, a line feed, and the
   * rewrite of `b`. A '\r' at the end of `a` is kept, as the scan pairs it with nothing.
   */
  lemma {:induction false} ReplaceCRLFPair(a: string, b: string)
    ensures ReplaceCRLF(a + "\r\n" + b) == ReplaceCRLF(a) + "\n" + ReplaceCRLF(b)
    decreases |a|
  {
    if a == [] {
      ReplaceCRLFPairEmpty(a, b);
    } else {
      var pair := |a| >= 2 && a[0] == '\r' && a[1] == '\n';
      var n := if pair then 2 else 1;
      ReplaceCRLFPair(a[n..], b);
      ReplaceCRLFPairStep(a, b, n, if pair then "\n" else [a[0]]);
    }
  }

  /** A text that opens with "\r\n" is rewritten to a line feed and the rewrite of the rest. */
  lemma ReplaceCRLFLeadingPair(b: string)
    ensures ReplaceCRLF("\r\n" + b) == "\n" + ReplaceCRLF(b)
  {
    var s := "\r\n" + b;
    assert s[2..] == b;
    ReplaceCRLFStep(s, b, "\n");
  }

  /** The pair rule for a non-empty `a`, given the rule for the rest of `a` after its first step. */
  lemma ReplaceCRLFPairStep(a: string, b: string, n: nat, out: string)
    requires a != []
    requires if |a| >= 2 && a[0] == '\r' && a[1] == '\n' then out == "\n" && n == 2
             else out == [a[0]] && n == 1
    requires ReplaceCRLF(a[n..] + "\r\n" + b) == ReplaceCRLF(a[n..]) + "\n" + ReplaceCRLF(b)
    ensures ReplaceCRLF(a + "\r\n" + b) == ReplaceCRLF(a) + "\n" + ReplaceCRLF(b)
  {
    var s := a + "\r\n" + b;
    var t := a[n..] + "\r\n" + b;
    PairFirstStep(a, b, n);
    ReplaceCRLFStep(s, t, out);
    ReplaceCRLFStep(a, a[n..], out);
    ConcatShift(ReplaceCRLF(s), ReplaceCRLF(a), out, ReplaceCRLF(t), ReplaceCRLF(a[n..]), ReplaceCRLF(b));
  }

  /** Appending "\r\n" + `b` to a non-empty `a` does not change the first step of the scan. */
  lemma PairFirstStep(a: string, b: string, n: nat)
    requires a != []
    requires n == if |a| >= 2 && a[0] == '\r' && a[1] == '\n' then 2 else 1
    ensures n <= |a|
    ensures var s := a + "\r\n" + b;
      s[0] == a[0] && (|s| >= 2 && s[0] == '\r' && s[1] == '\n' <==> n == 2) && s[n..] == a[n..] + "\r\n" + b
  {
    var s := a + "\r\n" + b;
    assert s[1] == if |a| >= 2 then a[1] else '\r';
  }

  /** The pair rule when nothing precedes the pair. */
  lemma ReplaceCRLFPairEmpty(a: string, b: string)
    requires a == []
    ensures ReplaceCRLF(a + "\r\n" + b) == ReplaceCRLF(a) + "\n" + ReplaceCRLF(b)
  {
    ReplaceCRLFLeadingPair(b);
    EmptyFront(a, b, ReplaceCRLF(a), ReplaceCRLF(b));
  }

  /** Sequence bookkeeping for the empty prefix: nothing in front of the pair, and an empty rewrite in front of the line feed. */
  lemma EmptyFront(a: string, b: string, ra: string, rb: string)
    requires a == [] && ra == ReplaceCRLF(a)
    ensures a + "\r\n" + b == "\r\n" + b && ra + "\n" + rb == "\n" + rb
  {
  }

  /** Sequence bookkeeping for the step: `x == o + t`, `y == o + p` and `t == p + "\n" + q` give `x == y + "\n" + q`. */
  lemma ConcatShift(x: string, y: string, o: string, t: string, p: string, q: string)
    requires x == o + t && y == o + p && t == p + "\n" + q
    ensures x == y + "\n" + q
  {
  }

  /** One step of the scan, with the characters it emits and the text it continues on. */
  lemma ReplaceCRLFStep(s: string, t: string, out: string)
    requires s != []
    requires if |s| >= 2 && s[0] == '\r' && s[1] == '\n' then out == "\n" && t == s[2..]
             else out == [s[0]] && t == s[1..]
    ensures ReplaceCRLF(s) == out + ReplaceCRLF(t)
  {
  }

  /** A text in which no '\r' is directly followed by '\n' is left unchanged. */
  lemma {:induction false} ReplaceCRLFNoPair(s: string)
    requires forall k :: 0 <= k < |s| - 1 ==> !(s[k] == '\r' && s[k + 1] == '\n')
    ensures ReplaceCRLF(s) == s
    decreases |s|
  {
    if s != [] {
      var t := s[1..];
      assert forall k :: 0 <= k < |t| ==> t[k] == s[k + 1];
      ReplaceCRLFNoPair(t);
      assert s == [s[0]] + t;
    }
  }

  /** `s.find(c)`: the first index holding `c`, or -1. */
  function Find(s: string, c: char): (r: int)
    ensures -1 <= r < |s|
    ensures r >= 0 ==> s[r] == c
    ensures forall k :: 0 <= k < |s| && (r < 0 || k < r) ==> s[k] != c
  {
    if s == [] then -1
    else if s[0] == c then 0
    else var r := Find(s[1..], c); if r < 0 then -1 else r + 1
  }

  /** The last index `k` with `lo <= k < hi` holding `c`, or -1. */
  function RFindIn(s: string, c: char, lo: nat, hi: nat): (r: int)
    requires hi <= |s|
    ensures r == -1 || (lo <= r < hi && s[r] == c)
    decreases hi
  {
    if hi <= lo then -1
    else if s[hi - 1] == c then hi - 1
    else RFindIn(s, c, lo, hi - 1)
  }

  /** No occurrence of `c` in `[lo, hi)` lies after the index `RFindIn` returns. */
  lemma {:induction false} RFindInLast(s: string, c: char, lo: nat, hi: nat)
    requires hi <= |s|
    ensures forall k :: lo <= k < hi && RFindIn(s, c, lo, hi) < k ==> s[k] != c
    decreases hi
  {
    if hi > lo && s[hi - 1] != c {
      RFindInLast(s, c, lo, hi - 1);
    }
  }

  /** Searching a slice is searching the same positions of the whole, shifted by the slice's start. */
  lemma {:induction false} RFindInShift(s: string, c: char, i: nat, j: nat, lo: nat, hi: nat)
    requires i <= j <= |s| && hi <= j - i
    ensures var r := RFindIn(s[i..j], c, lo, hi);
      RFindIn(s, c, i + lo, i + hi) == if r < 0 then -1 else i + r
    decreases hi
  {
    if hi > lo && s[i..j][hi - 1] != c {
      RFindInShift(s, c, i, j, lo, hi - 1);
    }
  }

  /** `s.rfind(c)`: the last index holding `c`, or -1; `RFindLast` shows no later one exists. */
  function RFind(s: string, c: char): (r: int)
    ensures r == -1 || (0 <= r < |s| && s[r] == c)
  {
    RFindIn(s, c, 0, |s|)
  }

  lemma RFindLast(s: string, c: char)
    ensures forall k :: RFind(s, c) < k < |s| ==> s[k] != c
  {
    RFindInLast(s, c, 0, |s|);
  }

  /** `"\n".join(lines)`. */
  function JoinLines(lines: seq<string>): string {
    if lines == [] then ""
    else if |lines| == 1 then lines[0]
    else lines[0] + "\n" + JoinLines(lines[1..])
  }

  function DropFinalNewline(s: string): string {
    if s != [] && s[|s| - 1] == '\n' then s[..|s| - 1] else s
  }

  /**
   * `s.splitlines()` for text whose only line break is '\n': the lines hold no
   * break, and joining them back gives `s` without a final break.
   */
  function SplitLines(s: string): (lines: seq<string>)
    ensures forall k :: 0 <= k < |lines| ==> '\n' !in lines[k]
    ensures JoinLines(lines) == DropFinalNewline(s)
    ensures lines == [] <==> s == []
    decreases |s|
  {
    if s == [] then []
    else
      var p := Find(s, '\n');
      if p < 0 then
        assert '\n' !in s;
        [s]
      else
        var rest := s[p + 1..];
        var tail := SplitLines(rest);
        SplitStep(s, p, tail);
        [s[..p]] + tail
  }

  lemma SplitStep(s: string, p: nat, tail: seq<string>)
    requires p < |s| && s[p] == '\n'
    requires forall k :: 0 <= k < p ==> s[k] != '\n'
    requires tail == [] <==> s[p + 1..] == []
    requires JoinLines(tail) == DropFinalNewline(s[p + 1..])
    ensures '\n' !in s[..p]
    ensures JoinLines([s[..p]] + tail) == DropFinalNewline(s)
  {
    var rest := s[p + 1..];
    assert s == s[..p] + "\n" + rest;
    if rest == [] {
      assert DropFinalNewline(s) == s[..p];
    } else {
      assert ([s[..p]] + tail)[1..] == tail;
      assert s[|s| - 1] == rest[|rest| - 1];
      if rest[|rest| - 1] == '\n' {
        assert s[..|s| - 1] == s[..p] + "\n" + rest[..|rest| - 1];
      }
    }
  }

  /** A line that is not the last keeps its break: joining undoes splitting when no line holds a break. */
  lemma {:induction false} SplitJoin(lines: seq<string>)
    requires forall k :: 0 <= k < |lines| ==> '\n' !in lines[k] && lines[k] != []
    ensures SplitLines(JoinLines(lines)) == lines
    decreases |lines|
  {
    if |lines| == 1 {
      assert Find(lines[0], '\n') < 0;
    } else if |lines| > 1 {
      var x := lines[0];
      assert JoinLines(lines) == x + "\n" + JoinLines(lines[1..]);
      SplitAtFirst(x, JoinLines(lines[1..]));
      SplitJoin(lines[1..]);
      assert lines == [x] + lines[1..];
    }
  }

  /** Splitting at the first break: the text before it is the first line. */
  lemma SplitAtFirst(x: string, rest: string)
    requires '\n' !in x
    ensures SplitLines(x + "\n" + rest) == [x] + SplitLines(rest)
  {
    var s := x + "\n" + rest;
    assert s[|x|] == '\n';
    assert forall k :: 0 <= k < |x| ==> s[k] == x[k];
    assert Find(s, '\n') == |x|;
    assert s[..|x|] == x;
    assert s[|x| + 1..] == rest;
  }


  function DigitChar(d: nat): (c: char)
    requires d < 10
  {
    ('0' as int + d) as char
  }

  /** The decimal rendering of a natural number, as `str(n)` or an f-string gives it. */
  function Dec(n: nat): (r: string)
    ensures |r| >= 1
    ensures forall k :: 0 <= k < |r| ==> '0' <= r[k] <= '9'
  {
    if n < 10 then [DigitChar(n)] else Dec(n / 10) + [DigitChar(n % 10)]
  }

  /** Reads a string of decimal digits back as a number. */
  function ParseDec(s: string): int {
    if s == [] then 0 else ParseDec(s[..|s| - 1]) * 10 + (s[|s| - 1] as int - '0' as int)
  }

  /** Reading back the decimal rendering gives the number: the rendering is injective. */
  lemma {:induction false} ParseDecOfDec(n: nat)
    ensures ParseDec(Dec(n)) == n
  {
    if n >= 10 {
      ParseDecOfDec(n / 10);
      var s := Dec(n);
      assert s[..|s| - 1] == Dec(n / 10);
    }
  }

  /** `s` left-padded with '0' to at least `width` characters, as the format `{n:04d}` does. */
  function ZeroPad(s: string, width: nat): (r: string)
    ensures |r| == if |s| >= width then |s| else width
    ensures r[|r| - |s|..] == s
    ensures forall k :: 0 <= k < |r| - |s| ==> r[k] == '0'
  {
    if |s| >= width then s else seq(width - |s|, _ => '0') + s
  }

  predicate IsUpper(c: char) {
    'A' <= c <= 'Z'
  }

  /** An ASCII capital becomes its small letter; any other character is kept. */
  function LowerChar(c: char): (r: char)
    ensures !IsUpper(r)
    ensures !IsUpper(c) ==> r == c
    ensures IsUpper(c) ==> 'a' <= r <= 'z' && r as int - 'a' as int == c as int - 'A' as int
  {
    if IsUpper(c) then (c as int + 32) as char else c
  }

  /** `s.lower()` on the ASCII letters. */
  function Lower(s: string): (r: string)
    ensures |r| == |s|
    ensures forall k :: 0 <= k < |r| ==> !IsUpper(r[k])
    ensures forall k :: 0 <= k < |s| && !IsUpper(s[k]) ==> r[k] == s[k]
  {
    seq(|s|, k requires 0 <= k < |s| => LowerChar(s[k]))
  }

  /** A text without ASCII capitals is its own lower case, so lowering twice is lowering once. */
  lemma LowerIdempotent(s: string)
    ensures (forall k :: 0 <= k < |s| ==> !IsUpper(s[k])) ==> Lower(s) == s
    ensures Lower(Lower(s)) == Lower(s)
  {
    var l := Lower(s);
    assert forall k :: 0 <= k < |l| ==> Lower(l)[k] == l[k];
  }

  /** Lowering works character by character, so it distributes over concatenation. */
  lemma LowerAppend(a: string, b: string)
    ensures Lower(a + b) == Lower(a) + Lower(b)
  {
    var l := Lower(a) + Lower(b);
    assert forall k :: 0 <= k < |a + b| ==> Lower(a + b)[k] == l[k];
  }

  /** `t in s` for strings: `t` occurs in `s` as a contiguous piece. */
  predicate Contains(s: string, t: string) {
    exists k: nat :: k <= |s| && OccursAt(s, t, k)
  }

  predicate OccursAt(s: string, t: string, k: nat) {
    k + |t| <= |s| && s[k..k + |t|] == t
  }

  /** A piece placed anywhere in a text is contained in it. */
  lemma ContainsInfix(a: string, t: string, b: string)
    ensures Contains(a + t + b, t)
  {
    assert OccursAt(a + t + b, t, |a|);
  }

  /** Concatenation of a sequence of sequences, in order. */
  function Flatten<T>(xs: seq<seq<T>>): seq<T> {
    if xs == [] then [] else xs[0] + Flatten(xs[1..])
  }

  lemma {:induction false} FlattenAppend<T>(xs: seq<seq<T>>, ys: seq<seq<T>>)
    ensures Flatten(xs + ys) == Flatten(xs) + Flatten(ys)
    decreases |xs|
  {
    if xs == [] {
      assert xs + ys == ys;
    } else {
      assert (xs + ys)[1..] == xs[1..] + ys;
      FlattenAppend(xs[1..], ys);
      assert Flatten(xs + ys) == xs[0] + Flatten(xs[1..] + ys);
    }
  }
}
