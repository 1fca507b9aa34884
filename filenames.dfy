/**
 * Naming of the generated MP3: `sanitize_filename` turns a line of text into a
 * safe file name, `pick_first_nonempty_line` chooses the line, and `unique_path`
 * picks the first name not yet present in the output folder.
 */
module FileNames {
  import opened Text

  /** The default `max_len` of `sanitize_filename`. */
  const MaxNameLen: nat := 120

  /** The name used when nothing usable is left. */
  const FallbackName: string := "audio"

  /** The characters `sanitize_filename` replaces by '_': `\ / * ? : " < > |`. */
  predicate IsReserved(c: char) {
    c == '\\' || c == '/' || c == '*' || c == '?' || c == ':' || c == '"' || c == '<' || c == '>' || c == '|'
  }

  predicate NoReserved(s: string) {
    forall k :: 0 <= k < |s| ==> !IsReserved(s[k])
  }

  /** Every whitespace character is a plain space, and no two of them are adjacent. */
  predicate SingleSpaced(s: string) {
    forall k :: 0 <= k < |s| && IsSpace(s[k]) ==> s[k] == ' ' && (k + 1 < |s| ==> !IsSpace(s[k + 1]))
  }

  /** Every reserved character replaced by '_', as the pattern substitution of the source does. */
  function ReplaceReserved(s: string): (r: string)
    ensures |r| == |s| && NoReserved(r)
    ensures forall k :: 0 <= k < |s| && IsReserved(s[k]) ==> r[k] == '_'
    ensures forall k :: 0 <= k < |s| && !IsReserved(s[k]) ==> r[k] == s[k]
  {
    seq(|s|, k requires 0 <= k < |s| => if IsReserved(s[k]) then '_' else s[k])
  }

  /** `re.sub(r"\s+", " ", s)`: every maximal run of whitespace becomes one space. */
  function CollapseSpaces(s: string): (r: string)
    ensures |r| <= |s|
    ensures (forall k :: 0 <= k < |s| ==> !IsSpace(s[k])) ==> r == s
    decreases |s|
  {
    if s == [] then []
    else if IsSpace(s[0]) then " " + CollapseSpaces(TrimLeft(s[1..], Whitespace))
    else [s[0]] + CollapseSpaces(s[1..])
  }

  /** The result starts with a space exactly when the input starts with whitespace. */
  lemma CollapseSpacesHead(s: string)
    ensures CollapseSpaces(s) == [] <==> s == []
    ensures s != [] ==> (IsSpace(CollapseSpaces(s)[0]) <==> IsSpace(s[0]))
  {
  }

  /** After collapsing, whitespace is single plain spaces. */
  lemma {:induction false} CollapseSpacesSingle(s: string)
    ensures SingleSpaced(CollapseSpaces(s))
    decreases |s|
  {
    if s != [] {
      if IsSpace(s[0]) {
        var t := TrimLeft(s[1..], Whitespace);
        TrimLeftSpec(s[1..], Whitespace);
        CollapseSpacesSingle(t);
        CollapseSpacesHead(t);
        SingleSpacedCons(' ', CollapseSpaces(t));
      } else {
        CollapseSpacesSingle(s[1..]);
        SingleSpacedCons(s[0], CollapseSpaces(s[1..]));
      }
    }
  }

  /** A character put in front of a single-spaced text keeps it single-spaced, unless whitespace meets whitespace. */
  lemma SingleSpacedCons(c: char, r: string)
    requires SingleSpaced(r)
    requires IsSpace(c) ==> c == ' ' && (r != [] ==> !IsSpace(r[0]))
    ensures SingleSpaced([c] + r)
  {
    var s := [c] + r;
    assert forall k :: 1 <= k < |s| ==> s[k] == r[k - 1];
  }

  /** Collapsing introduces no character but the space. */
  lemma {:induction false} CollapseSpacesChars(s: string)
    ensures forall k :: 0 <= k < |CollapseSpaces(s)| ==> CollapseSpaces(s)[k] == ' ' || CollapseSpaces(s)[k] in s
    decreases |s|
  {
    if s != [] {
      if IsSpace(s[0]) {
        var t := TrimLeft(s[1..], Whitespace);
        TrimLeftSpec(s[1..], Whitespace);
        CollapseSpacesChars(t);
        assert forall c :: c in t ==> c in s;
      } else {
        CollapseSpacesChars(s[1..]);
        assert forall c :: c in s[1..] ==> c in s;
      }
    }
  }

  lemma CollapseKeepsNoReserved(s: string)
    requires NoReserved(s)
    ensures NoReserved(CollapseSpaces(s))
  {
    var c := CollapseSpaces(s);
    CollapseSpacesChars(s);
    forall k | 0 <= k < |c|
      ensures !IsReserved(c[k])
    {
      if c[k] != ' ' {
        var j :| 0 <= j < |s| && s[j] == c[k];
      }
    }
  }

  /** Text that is already single-spaced is left as it is. */
  lemma {:induction false} CollapseSpacesNoop(s: string)
    requires SingleSpaced(s)
    ensures CollapseSpaces(s) == s
    decreases |s|
  {
    if s != [] {
      assert SingleSpaced(s[1..]);
      CollapseSpacesNoop(s[1..]);
      if IsSpace(s[0]) {
        assert TrimLeft(s[1..], Whitespace) == s[1..];
      }
    }
  }

  /** Both predicates survive taking a contiguous piece. */
  lemma InfixKeeps(s: string, a: nat, b: nat)
    requires a <= b <= |s|
    ensures NoReserved(s) ==> NoReserved(s[a..b])
    ensures SingleSpaced(s) ==> SingleSpaced(s[a..b])
  {
    var t := s[a..b];
    assert forall k :: 0 <= k < |t| ==> t[k] == s[a + k];
  }

  /**
   * The cleaned name before truncation: stripped, reserved characters replaced,
   * whitespace runs collapsed, spaces and dots stripped from both ends, "audio" if empty.
   */
  function CleanName(name: string): string {
    var d := StripBy(CollapseSpaces(ReplaceReserved(Strip(name))), SpaceOrDot);
    if d == [] then FallbackName else d
  }

  /** Python's `s[:n]`, negative `n` counting from the end. */
  function PyPrefix(s: string, n: int): (r: string)
    ensures |r| <= |s| && r == s[..|r|]
    ensures n >= 0 ==> |r| == if n <= |s| then n else |s|
  {
    if n >= |s| then s
    else if n >= 0 then s[..n]
    else if -n >= |s| then []
    else s[..|s| + n]
  }

  /** `sanitize_filename(name, max_len)`. */
  function SanitizeFilename(name: string, maxLen: int): string {
    PyPrefix(CleanName(name), maxLen)
  }

  /** The cleaned name is non-empty, free of reserved characters, single-spaced, and trimmed of spaces and dots. */
  lemma CleanNameShape(name: string)
    ensures var y := CleanName(name);
      y != [] && NoReserved(y) && SingleSpaced(y)
      && !Drops(SpaceOrDot, y[0]) && !Drops(SpaceOrDot, y[|y| - 1])
      && !IsSpace(y[0]) && !IsSpace(y[|y| - 1])
  {
    var b := ReplaceReserved(Strip(name));
    var c := CollapseSpaces(b);
    var d := StripBy(c, SpaceOrDot);
    if d == [] {
      FallbackNameShape();
    } else {
      CollapseSpacesSingle(b);
      CollapseKeepsNoReserved(b);
      StripDotsShape(c);
    }
  }

  /** Stripping spaces and dots keeps both predicates and leaves no whitespace at either end. */
  lemma StripDotsShape(c: string)
    requires NoReserved(c) && SingleSpaced(c) && StripBy(c, SpaceOrDot) != []
    ensures var d := StripBy(c, SpaceOrDot);
      NoReserved(d) && SingleSpaced(d) && !IsSpace(d[0]) && !IsSpace(d[|d| - 1])
  {
    var d := StripBy(c, SpaceOrDot);
    StripByInfix(c, SpaceOrDot);
    var a := |c| - |TrimLeft(c, SpaceOrDot)|;
    InfixKeeps(c, a, a + |d|);
  }

  /**
   * With `max_len >= 1` the sanitized name is non-empty, at most `max_len` long,
   * free of `\ / * ? : " < > |`, does not start with whitespace or a dot, and has
   * no two adjacent whitespace characters.
   */
  lemma SanitizeFilenameSafe(name: string, maxLen: int)
    requires maxLen >= 1
    ensures var r := SanitizeFilename(name, maxLen);
      0 < |r| <= maxLen && NoReserved(r) && SingleSpaced(r)
      && r[0] != ' ' && r[0] != '.' && !IsSpace(r[0])
  {
    var y := CleanName(name);
    CleanNameShape(name);
    var r := SanitizeFilename(name, maxLen);
    InfixKeeps(y, 0, |r|);
  }

  /** The shape every cleaned name has: non-empty, free of reserved characters, single-spaced, with no space, dot or whitespace at either end. */
  predicate CleanShape(y: string) {
    y != [] && NoReserved(y) && SingleSpaced(y)
    && !Drops(SpaceOrDot, y[0]) && !Drops(SpaceOrDot, y[|y| - 1])
    && !IsSpace(y[0]) && !IsSpace(y[|y| - 1])
  }

  /** The names cleaning leaves unchanged are exactly the names of the clean shape. */
  lemma CleanNameFixed(y: string)
    ensures CleanName(y) == y <==> CleanShape(y)
  {
    CleanNameShape(y);
    if CleanShape(y) {
      CleanShapeKept(y);
    }
  }

  /** Each stage of cleaning leaves a name of the clean shape as it is. */
  lemma CleanShapeKept(y: string)
    requires CleanShape(y)
    ensures CleanName(y) == y
  {
    StripByNoop(y, Whitespace);
    assert ReplaceReserved(y) == y;
    CollapseSpacesNoop(y);
    StripByNoop(y, SpaceOrDot);
  }

  /** Cleaning a cleaned name changes nothing. */
  lemma CleanNameIdempotent(name: string)
    ensures CleanName(CleanName(name)) == CleanName(name)
  {
    CleanNameShape(name);
    CleanNameFixed(CleanName(name));
  }

  /** A sanitized name that was not truncated sanitizes to itself. */
  lemma SanitizeFilenameIdempotent(name: string, maxLen: int)
    requires |CleanName(name)| <= maxLen
    ensures SanitizeFilename(SanitizeFilename(name, maxLen), maxLen) == SanitizeFilename(name, maxLen)
  {
    CleanNameIdempotent(name);
  }

  /** A name of the clean shape that fits in `max_len` is returned unchanged by `sanitize_filename`. */
  lemma SanitizeFilenameKeeps(y: string, maxLen: int)
    requires CleanShape(y) && |y| <= maxLen
    ensures SanitizeFilename(y, maxLen) == y
  {
    CleanNameFixed(y);
  }

  /** "audio" is a name of the shape `CleanNameShape` states. */
  lemma FallbackNameShape()
    ensures FallbackName != [] && NoReserved(FallbackName) && SingleSpaced(FallbackName)
    ensures !Drops(SpaceOrDot, FallbackName[0]) && !Drops(SpaceOrDot, FallbackName[|FallbackName| - 1])
    ensures !IsSpace(FallbackName[0]) && !IsSpace(FallbackName[|FallbackName| - 1])
  {
    assert FallbackName == ['a', 'u', 'd', 'i', 'o'];
  }

  predicate AllBlank(lines: seq<string>) {
    forall k :: 0 <= k < |lines| ==> AllSpace(lines[k])
  }

  /** Line `k` is the first line that is not blank. */
  predicate FirstNonBlank(lines: seq<string>, k: nat) {
    k < |lines| && !AllSpace(lines[k]) && forall j :: 0 <= j < k ==> AllSpace(lines[j])
  }

  /**
   * `pick_first_nonempty_line(text)`: the first line that is not blank, stripped,
   * or "audio" when every line is blank.
   */
  method PickFirstNonemptyLine(text: string) returns (r: string)
    ensures AllBlank(SplitLines(text)) ==> r == FallbackName
    ensures forall k: nat :: FirstNonBlank(SplitLines(text), k) ==> r == Strip(SplitLines(text)[k])
    ensures r != [] && !IsSpace(r[0]) && !IsSpace(r[|r| - 1])
  {
    var lines := SplitLines(text);
    r := FirstNonBlankLine(lines);
  }

  /** The scan of `pick_first_nonempty_line` over the text's lines. */
  method FirstNonBlankLine(lines: seq<string>) returns (r: string)
    ensures AllBlank(lines) ==> r == FallbackName
    ensures forall k: nat :: FirstNonBlank(lines, k) ==> r == Strip(lines[k])
    ensures r != [] && !IsSpace(r[0]) && !IsSpace(r[|r| - 1])
  {
    var k := 0;
    while k < |lines|
      invariant 0 <= k <= |lines|
      invariant forall j :: 0 <= j < k ==> AllSpace(lines[j])
    {
      var ln := Strip(lines[k]);
      if ln != [] {
        FirstNonBlankUnique(lines, k);
        return ln;
      }
      k := k + 1;
    }
    FallbackNameShape();
    r := FallbackName;
  }

  /** At most one line is the first non-blank one. */
  lemma FirstNonBlankUnique(lines: seq<string>, k: nat)
    requires FirstNonBlank(lines, k)
    ensures forall k': nat :: FirstNonBlank(lines, k') ==> k' == k
  {
  }

  /** `f"{base}.mp3"`. */
  function PlainName(base: string): string {
    base + ".mp3"
  }

  /** `f"{base} ({i}).mp3"`. */
  function NumberedName(base: string, i: nat): string {
    base + " (" + Dec(i) + ").mp3"
  }

  /** The candidate names are pairwise distinct, so the first free one is well defined. */
  lemma NamesDistinct(base: string, i: nat, j: nat)
    ensures PlainName(base) != NumberedName(base, i)
    ensures i != j ==> NumberedName(base, i) != NumberedName(base, j)
  {
    if i != j && NumberedName(base, i) == NumberedName(base, j) {
      var x := NumberedName(base, i);
      assert |Dec(i)| == |Dec(j)|;
      assert Dec(i) == x[|base| + 2..|x| - 5];
      assert Dec(j) == x[|base| + 2..|x| - 5];
      ParseDecOfDec(i);
      ParseDecOfDec(j);
    }
  }

  function Pow10(k: nat): (p: nat)
    ensures p >= 1
  {
    if k == 0 then 1 else 10 * Pow10(k - 1)
  }

  /** A number at least `10^k` takes more than `k` digits. */
  lemma {:induction false} DecLength(n: nat, k: nat)
    requires n >= Pow10(k)
    ensures |Dec(n)| > k
  {
    if k > 0 {
      DecLength(n / 10, k - 1);
    }
  }

  /** A bound on the length of the names in a finite set. */
  ghost function Longest(names: set<string>): (n: nat)
    ensures forall x :: x in names ==> |x| <= n
    decreases |names|
  {
    if names == {} then 0
    else
      var x :| x in names;
      var rest := Longest(names - {x});
      if |x| > rest then |x| else rest
  }

  /**
   * `r` is the name `unique_path` settles on for `base`: not in the folder, the
   * plain name if that is free, else the first free numbered name from 2 on.
   */
  ghost predicate FirstFree(existing: set<string>, base: string, r: string) {
    && r !in existing
    && (PlainName(base) !in existing ==> r == PlainName(base))
    && (PlainName(base) in existing ==>
          exists i :: 2 <= i && r == NumberedName(base, i)
            && forall j :: 2 <= j < i ==> NumberedName(base, j) in existing)
  }

  /** At most one name fits that description, so the choice is determined by the folder. */
  lemma FirstFreeUnique(existing: set<string>, base: string, r1: string, r2: string)
    requires FirstFree(existing, base, r1) && FirstFree(existing, base, r2)
    ensures r1 == r2
  {
    if PlainName(base) in existing {
      var i1 :| 2 <= i1 && r1 == NumberedName(base, i1)
        && forall j :: 2 <= j < i1 ==> NumberedName(base, j) in existing;
      var i2 :| 2 <= i2 && r2 == NumberedName(base, i2)
        && forall j :: 2 <= j < i2 ==> NumberedName(base, j) in existing;
    }
  }

  predicate Taken(existing: set<string>, base: string, i: nat) {
    NumberedName(base, i) in existing
  }

  /** A finite folder leaves some numbered name free: one longer than every name in it. */
  lemma FreeNumber(existing: set<string>, base: string) returns (n: nat)
    ensures n >= 2 && !Taken(existing, base, n)
  {
    n := Pow10(Longest(existing) + 1);
    DecLength(n, Longest(existing) + 1);
  }

  /**
   * `unique_path(folder, filename)` over the names already in the folder: the
   * plain name when it is free, otherwise the numbered name with the smallest
   * number from 2 on that is free. The result is never an existing name.
   */
  method UniquePath(existing: set<string>, filename: string) returns (r: string)
    ensures FirstFree(existing, SanitizeFilename(filename, MaxNameLen), r)
  {
    var base := SanitizeFilename(filename, MaxNameLen);
    r := PlainName(base);
    if r !in existing {
      return;
    }
    ghost var bound := FreeNumber(existing, base);
    var i := 2;
    while NumberedName(base, i) in existing
      invariant 2 <= i <= bound
      invariant forall j :: 2 <= j < i ==> Taken(existing, base, j)
      decreases bound - i
    {
      assert Taken(existing, base, i);
      i := i + 1;
    }
    r := NumberedName(base, i);
    assert forall j :: 2 <= j < i ==> NumberedName(base, j) in existing by {
      forall j | 2 <= j < i
        ensures NumberedName(base, j) in existing
      {
        assert Taken(existing, base, j);
      }
    }
  }
}
