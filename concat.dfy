/**
 * Joining the per-chunk MP3 parts into one file: the list file handed to
 * FFmpeg's concat demuxer (one `file '<path>'` line per part, quotes escaped),
 * the errors `concat_mp3_ffmpeg` raises, and the byte-level fallback
 * `concat_mp3_naive`.
 */
module Concat {
  import opened Text
  import opened Wrappers

  type Byte = bv8

  /** The message raised when there is nothing to concatenate. */
  const NoPartsError: string := "Nenhuma parte para concatenar."

  /** The prefix of the message raised when FFmpeg exits with a non-zero status. */
  const FfmpegFailedPrefix: string := "FFmpeg falhou ao concatenar: "

  /**
   * Each single quote replaced by `'\''`: inside a quoted path this closes the
   * quotes, adds an escaped quote and reopens them.
   */
  function EscapeQuotes(p: string): (r: string)
    ensures |r| >= |p|
    ensures '\'' !in p ==> r == p
    ensures forall c :: c in r ==> c in p || c == '\\'
  {
    if p == [] then []
    else (if p[0] == '\'' then "'\\''" else [p[0]]) + EscapeQuotes(p[1..])
  }

  /** One line of the list file: `file '<escaped path>'`. */
  function ManifestLine(p: string): string {
    "file '" + EscapeQuotes(p) + "'"
  }

  /** The list file's lines, one per part, in order. */
  function ManifestLines(parts: seq<string>): (lines: seq<string>)
    ensures |lines| == |parts|
  {
    seq(|parts|, k requires 0 <= k < |parts| => ManifestLine(parts[k]))
  }

  /**
   * How the concat demuxer reads a token back: text between single quotes is
   * literal, and outside quotes a backslash takes the next character literally.
   * `quoted` says whether the reader is inside quotes; an unclosed quote or a
   * trailing backslash is an error.
   */
  function Unquote(s: string, quoted: bool): Option<string>
    decreases |s|
  {
    if s == [] then (if quoted then None else Some([]))
    else if quoted then
      if s[0] == '\'' then Unquote(s[1..], false) else Prepend([s[0]], Unquote(s[1..], true))
    else if s[0] == '\'' then Unquote(s[1..], true)
    else if s[0] == '\\' then
      if |s| < 2 then None else Prepend([s[1]], Unquote(s[2..], false))
    else Prepend([s[0]], Unquote(s[1..], false))
  }

  function Prepend(p: string, o: Option<string>): Option<string> {
    match o
    case None => None
    case Some(x) => Some(p + x)
  }

  /** Reads a list-file line back: the path of a `file` directive, if it is one. */
  function ParseLine(line: string): Option<string> {
    if |line| >= 5 && line[..5] == "file " then Unquote(line[5..], false) else None
  }

  /** Reading an escaped path inside quotes gives the path back, and reading continues after it. */
  lemma {:induction false} UnquoteEscaped(p: string, t: string)
    ensures Unquote(EscapeQuotes(p) + t, true) == Prepend(p, Unquote(t, true))
    decreases |p|
  {
    if p == [] {
      assert EscapeQuotes(p) + t == t;
      match Unquote(t, true)
      case None =>
      case Some(x) => assert p + x == x;
    } else {
      var rest := EscapeQuotes(p[1..]) + t;
      UnquoteEscaped(p[1..], t);
      assert p == [p[0]] + p[1..];
      if p[0] == '\'' {
        assert EscapeQuotes(p) + t == "'\\''" + rest;
        UnquoteQuoteStep(rest);
      } else {
        assert EscapeQuotes(p) + t == [p[0]] + rest;
        UnquotePlainStep(p[0], rest);
      }
      PrependTwice([p[0]], p[1..], Unquote(t, true));
    }
  }

  /** Inside quotes, `'\''` reads as one quote and leaves the reader inside quotes. */
  lemma UnquoteQuoteStep(rest: string)
    ensures Unquote("'\\''" + rest, true) == Prepend("'", Unquote(rest, true))
  {
    var s := "'\\''" + rest;
    assert s[0] == '\'';
    var s1 := s[1..];
    assert Unquote(s, true) == Unquote(s1, false);
    assert s1[0] == '\\' && s1[1] == '\'' && |s1| >= 2;
    assert Unquote(s1, false) == Prepend("'", Unquote(s1[2..], false));
    var s2 := s1[2..];
    assert s2 == "'" + rest;
    assert s2[0] == '\'';
    assert s2[1..] == rest;
    assert Unquote(s2, false) == Unquote(rest, true);
  }

  /** Inside quotes, any other character reads as itself. */
  lemma UnquotePlainStep(c: char, rest: string)
    requires c != '\''
    ensures Unquote([c] + rest, true) == Prepend([c], Unquote(rest, true))
  {
    assert ([c] + rest)[1..] == rest;
  }

  lemma PrependTwice(a: string, b: string, o: Option<string>)
    ensures Prepend(a, Prepend(b, o)) == Prepend(a + b, o)
  {
    match o
    case None =>
    case Some(x) => assert a + (b + x) == (a + b) + x;
  }

  /** Every list-file line reads back as the path it was written for. */
  lemma ParseManifestLine(p: string)
    ensures ParseLine(ManifestLine(p)) == Some(p)
  {
    var line := ManifestLine(p);
    assert line[..5] == "file ";
    assert line[5..] == "'" + (EscapeQuotes(p) + "'");
    assert line[5..][1..] == EscapeQuotes(p) + "'";
    UnquoteEscaped(p, "'");
    assert Unquote("'", true) == Some([]);
    assert p + [] == p;
  }

  /** Escaping adds only quotes and backslashes, so a path without line breaks gives a line without one. */
  lemma {:induction false} EscapeNoNewline(p: string)
    requires '\n' !in p
    ensures '\n' !in EscapeQuotes(p)
    decreases |p|
  {
    if p != [] {
      assert '\n' !in p[1..];
      EscapeNoNewline(p[1..]);
    }
  }

  /**
   * The list file splits into one line per part, and each line reads back as its
   * part's path, provided no path holds a line break.
   */
  lemma ManifestRoundTrip(parts: seq<string>)
    requires forall k :: 0 <= k < |parts| ==> '\n' !in parts[k]
    ensures var lines := SplitLines(JoinLines(ManifestLines(parts)));
      |lines| == |parts| && forall k :: 0 <= k < |parts| ==> ParseLine(lines[k]) == Some(parts[k])
  {
    var lines := ManifestLines(parts);
    forall k | 0 <= k < |lines|
      ensures '\n' !in lines[k] && lines[k] != []
    {
      EscapeNoNewline(parts[k]);
      assert lines[k] == "file '" + EscapeQuotes(parts[k]) + "'";
    }
    SplitJoin(lines);
    forall k | 0 <= k < |parts|
      ensures ParseLine(lines[k]) == Some(parts[k])
    {
      ParseManifestLine(parts[k]);
    }
  }

  /** `"\n".join(f"file '{escaped}'" for p in parts)`, built line by line. */
  method BuildManifest(parts: seq<string>) returns (text: string)
    ensures text == JoinLines(ManifestLines(parts))
  {
    var lines: seq<string> := [];
    var k := 0;
    while k < |parts|
      invariant 0 <= k <= |parts|
      invariant |lines| == k
      invariant forall j :: 0 <= j < k ==> lines[j] == ManifestLine(parts[j])
    {
      lines := lines + [ManifestLine(parts[k])];
      k := k + 1;
    }
    assert lines == ManifestLines(parts);
    text := JoinLines(lines);
  }

  /** What the FFmpeg subprocess reports. */
  datatype ProcessResult = ProcessResult(returnCode: int, stdout: string, stderr: string)

  /** `res.stderr or res.stdout or ""`. */
  function ErrorOutput(run: ProcessResult): string {
    if run.stderr != [] then run.stderr else run.stdout
  }

  /**
   * `concat_mp3_ffmpeg(parts, output)` with the FFmpeg run given as `run`: fails
   * when there are no parts; otherwise writes the list file (its text is the
   * success value) and fails with FFmpeg's stripped message on a non-zero status.
   */
  method ConcatFfmpeg(parts: seq<string>, run: ProcessResult) returns (r: Result<string, string>)
    ensures parts == [] ==> r == Failure(NoPartsError)
    ensures parts != [] && run.returnCode == 0 ==> r == Success(JoinLines(ManifestLines(parts)))
    ensures parts != [] && run.returnCode != 0 ==> r == Failure(FfmpegFailedPrefix + Strip(ErrorOutput(run)))
  {
    if parts == [] {
      return Failure(NoPartsError);
    }
    var manifest := BuildManifest(parts);
    if run.returnCode != 0 {
      var msg := Strip(ErrorOutput(run));
      return Failure(FfmpegFailedPrefix + msg);
    }
    r := Success(manifest);
  }

  /** `concat_mp3_naive(parts, output)`: the parts' bytes written one after another. */
  method ConcatNaive(parts: seq<seq<Byte>>) returns (out: seq<Byte>)
    ensures out == Flatten(parts)
  {
    out := [];
    var k := 0;
    while k < |parts|
      invariant 0 <= k <= |parts|
      invariant out == Flatten(parts[..k])
    {
      FlattenStep(parts, k);
      out := out + parts[k];
      k := k + 1;
    }
    assert parts[..k] == parts;
  }

  lemma FlattenStep<T>(xs: seq<seq<T>>, k: nat)
    requires k < |xs|
    ensures Flatten(xs[..k + 1]) == Flatten(xs[..k]) + xs[k]
  {
    assert xs[..k + 1] == xs[..k] + [xs[k]];
    FlattenAppend(xs[..k], [xs[k]]);
    assert [xs[k]][1..] == [];
  }

  /** Where part `k` starts in the concatenated file. */
  function Offset(parts: seq<seq<Byte>>, k: nat): nat
    requires k <= |parts|
  {
    |Flatten(parts[..k])|
  }

  /** Part `k` sits, unchanged, right after the parts before it. */
  lemma PartAt(parts: seq<seq<Byte>>, k: nat)
    requires k < |parts|
    ensures Offset(parts, k) + |parts[k]| == Offset(parts, k + 1) <= |Flatten(parts)|
    ensures Flatten(parts)[Offset(parts, k)..Offset(parts, k + 1)] == parts[k]
  {
    var before := Flatten(parts[..k]);
    var after := Flatten(parts[k + 1..]);
    FlattenStep(parts, k);
    assert parts == parts[..k + 1] + parts[k + 1..];
    FlattenAppend(parts[..k + 1], parts[k + 1..]);
    MiddleSlice(before, parts[k], after);
  }

  lemma MiddleSlice<T>(a: seq<T>, m: seq<T>, c: seq<T>)
    ensures |a| + |m| <= |a + m + c|
    ensures (a + m + c)[|a|..|a| + |m|] == m
  {
  }
}
