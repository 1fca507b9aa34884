/**
 * The decisions the job controller takes on plain values: the configuration and
 * how a commit of the staged values replaces it, the snapshot a generation job
 * takes, the backend choice and its warnings, progress percentages, which text is
 * spoken, and how the stop and pause controls act at a chunk boundary.
 */
module JobPolicy {
  import opened Text
  import Concat

  // ---------------------------------------------------------------------------
  // Configuration
  // ---------------------------------------------------------------------------

  const DefaultBackend: string := "edge"
  const DefaultVoice: string := "pt-BR-FranciscaNeural"
  const DefaultRate: string := "+0%"
  const DefaultPitch: string := "+0Hz"
  const DefaultTldLabel: string := "pt-BR (padrão)"
  const DefaultSpeed: string := "Normal"
  const SlowSpeed: string := "Lenta"
  const DefaultTld: string := "com.br"

  /** `AppConfig`: the applied configuration. */
  datatype Config = Config(
    excludeFirstLine: bool,
    mp3Backend: string,
    mp3Voice: string,
    mp3Rate: string,
    mp3Pitch: string,
    gtTldLabel: string,
    gtSpeed: string,
    readVoiceName: string,
    readRate: int,
    chunkMaxChars: int)

  /** `AppConfig()` with every field at its fallback. */
  function DefaultConfig(): Config {
    Config(false, DefaultBackend, DefaultVoice, DefaultRate, DefaultPitch,
           DefaultTldLabel, DefaultSpeed, "", 175, 1100)
  }

  /** The values staged in the settings widgets, waiting to be committed. */
  datatype Staged = Staged(
    excludeFirstLine: bool,
    mp3Backend: string,
    mp3Voice: string,
    mp3Rate: string,
    mp3Pitch: string,
    gtTldLabel: string,
    gtSpeed: string,
    readRate: int,
    readVoiceName: string,
    chunkMaxChars: int)

  /** `value.strip() or fallback`. */
  function StrippedOr(value: string, fallback: string): string {
    if Strip(value) == [] then fallback else Strip(value)
  }

  /** The configuration `save_and_apply_config` leaves: every field taken from the staged values. */
  function ApplyStaged(st: Staged): Config {
    Config(
      st.excludeFirstLine,
      StrippedOr(st.mp3Backend, DefaultBackend),
      StrippedOr(st.mp3Voice, DefaultVoice),
      StrippedOr(st.mp3Rate, DefaultRate),
      StrippedOr(st.mp3Pitch, DefaultPitch),
      st.gtTldLabel,
      st.gtSpeed,
      st.readVoiceName,
      st.readRate,
      st.chunkMaxChars)
  }

  /** A non-empty value with no whitespace at either end. */
  predicate Clean(v: string) {
    v != [] && !IsSpace(v[0]) && !IsSpace(v[|v| - 1])
  }

  lemma StrippedOrSpec(value: string, fallback: string)
    requires Clean(fallback)
    ensures Clean(StrippedOr(value, fallback))
    ensures AllSpace(value) ==> StrippedOr(value, fallback) == fallback
    ensures !AllSpace(value) ==> StrippedOr(value, fallback) == Strip(value)
  {
  }

  lemma DefaultsClean()
    ensures Clean(DefaultBackend) && Clean(DefaultVoice) && Clean(DefaultRate) && Clean(DefaultPitch)
  {
    assert DefaultBackend[0] == 'e' && DefaultBackend[|DefaultBackend| - 1] == 'e';
    assert DefaultVoice[0] == 'p' && DefaultVoice[|DefaultVoice| - 1] == 'l';
    assert DefaultRate[0] == '+' && DefaultRate[|DefaultRate| - 1] == '%';
    assert DefaultPitch[0] == '+' && DefaultPitch[|DefaultPitch| - 1] == 'z';
  }

  /**
   * A commit never leaves a blank backend, voice, rate or pitch: each is the
   * stripped staged value, or its fallback when the staged value is blank.
   */
  lemma ApplyStagedClean(st: Staged)
    ensures var c := ApplyStaged(st);
      Clean(c.mp3Backend) && Clean(c.mp3Voice) && Clean(c.mp3Rate) && Clean(c.mp3Pitch)
    ensures var c := ApplyStaged(st);
      (AllSpace(st.mp3Voice) ==> c.mp3Voice == DefaultVoice)
      && (!AllSpace(st.mp3Voice) ==> c.mp3Voice == Strip(st.mp3Voice))
      && (AllSpace(st.mp3Backend) ==> c.mp3Backend == DefaultBackend)
      && (!AllSpace(st.mp3Backend) ==> c.mp3Backend == Strip(st.mp3Backend))
  {
    DefaultsClean();
    StrippedOrSpec(st.mp3Backend, DefaultBackend);
    StrippedOrSpec(st.mp3Voice, DefaultVoice);
    StrippedOrSpec(st.mp3Rate, DefaultRate);
    StrippedOrSpec(st.mp3Pitch, DefaultPitch);
  }

  // ---------------------------------------------------------------------------
  // The snapshot a generation job takes
  // ---------------------------------------------------------------------------

  /** `App.TLD_OPTIONS`. */
  const TldOptions: map<string, string> :=
    map["pt-BR (padrão)" := "com.br", "pt (alternativo)" := "pt", "com (alternativo)" := "com"]

  /** `TLD_OPTIONS.get(tldLabel, "com.br")`. */
  function TldFor(tldLabel: string): (tld: string)
    ensures tldLabel in TldOptions ==> tld == TldOptions[tldLabel]
    ensures tldLabel !in TldOptions ==> tld == DefaultTld
  {
    if tldLabel in TldOptions then TldOptions[tldLabel] else DefaultTld
  }

  /** The settings a generation job keeps for its whole run. */
  datatype Snapshot = Snapshot(backend: string, voice: string, rate: string, pitch: string, tld: string, slow: bool)

  /** `(value or fallback).strip()`: the fallback replaces only the empty string. */
  function OrThenStrip(value: string, fallback: string): string {
    Strip(if value == [] then fallback else value)
  }

  function TakeSnapshot(cfg: Config): Snapshot {
    Snapshot(
      Lower(OrThenStrip(cfg.mp3Backend, DefaultBackend)),
      OrThenStrip(cfg.mp3Voice, DefaultVoice),
      OrThenStrip(cfg.mp3Rate, DefaultRate),
      OrThenStrip(cfg.mp3Pitch, DefaultPitch),
      TldFor(cfg.gtTldLabel),
      cfg.gtSpeed == SlowSpeed)
  }

  /** A clean value passes into the snapshot unchanged. */
  lemma OrThenStripClean(value: string, fallback: string)
    requires Clean(value)
    ensures OrThenStrip(value, fallback) == value
  {
    StripByNoop(value, Whitespace);
  }

  /** After a commit, a generation job runs with exactly the committed settings (the backend lower-cased). */
  lemma SnapshotOfApplied(st: Staged)
    ensures var c := ApplyStaged(st);
      TakeSnapshot(c) == Snapshot(Lower(c.mp3Backend), c.mp3Voice, c.mp3Rate, c.mp3Pitch,
                                  TldFor(st.gtTldLabel), st.gtSpeed == SlowSpeed)
  {
    var c := ApplyStaged(st);
    ApplyStagedClean(st);
    OrThenStripClean(c.mp3Backend, DefaultBackend);
    OrThenStripClean(c.mp3Voice, DefaultVoice);
    OrThenStripClean(c.mp3Rate, DefaultRate);
    OrThenStripClean(c.mp3Pitch, DefaultPitch);
  }

  /**
   * The defaults replace only empty values: a voice, rate or pitch made of
   * whitespace alone reaches the snapshot as the empty string.
   */
  lemma SnapshotDefaults(cfg: Config)
    ensures cfg.mp3Voice == [] ==> TakeSnapshot(cfg).voice == DefaultVoice
    ensures cfg.mp3Voice != [] && AllSpace(cfg.mp3Voice) ==> TakeSnapshot(cfg).voice == []
    ensures cfg.mp3Rate == [] ==> TakeSnapshot(cfg).rate == DefaultRate
    ensures cfg.mp3Pitch == [] ==> TakeSnapshot(cfg).pitch == DefaultPitch
    ensures cfg.mp3Backend == [] ==> TakeSnapshot(cfg).backend == DefaultBackend
  {
    DefaultsClean();
    OrThenStripClean(DefaultVoice, DefaultVoice);
    OrThenStripClean(DefaultRate, DefaultRate);
    OrThenStripClean(DefaultPitch, DefaultPitch);
    OrThenStripClean(DefaultBackend, DefaultBackend);
    assert Lower(DefaultBackend) == DefaultBackend;
  }

  // ---------------------------------------------------------------------------
  // Backend choice, warnings and the completion text
  // ---------------------------------------------------------------------------

  /** Edge TTS synthesises a part exactly when it is the chosen backend and it is installed; otherwise gTTS does. */
  function UseEdge(backend: string, edgeInstalled: bool): bool {
    backend == DefaultBackend && edgeInstalled
  }

  datatype Warning = EdgeTtsMissing | FfmpegMissing

  /** The warnings appended to the completion text, in order. */
  function Warnings(backend: string, edgeInstalled: bool, ffmpegOk: bool): seq<Warning> {
    (if backend == DefaultBackend && !edgeInstalled then [EdgeTtsMissing] else [])
    + (if !ffmpegOk then [FfmpegMissing] else [])
  }

  /**
   * The fallback warning appears exactly when Edge TTS was asked for but gTTS did
   * the work, and the FFmpeg warning exactly when FFmpeg is missing.
   */
  lemma WarningsExact(backend: string, edgeInstalled: bool, ffmpegOk: bool)
    ensures var ws := Warnings(backend, edgeInstalled, ffmpegOk);
      (EdgeTtsMissing in ws <==> backend == DefaultBackend && !UseEdge(backend, edgeInstalled))
      && (FfmpegMissing in ws <==> !ffmpegOk)
      && |ws| <= 2
  {
  }

  const EdgeWarningText: string := "Aviso: edge-tts não instalado. Usado gTTS (sem voz/pitch)."
  const FfmpegWarningText: string := "Aviso: FFmpeg não encontrado. Concat fallback pode falhar em alguns casos."

  function WarningText(w: Warning): string {
    match w
    case EdgeTtsMissing => EdgeWarningText
    case FfmpegMissing => FfmpegWarningText
  }

  /** The `extra` text of the completion dialog, built as the worker builds it. */
  function DoneText(fileName: string, backend: string, edgeInstalled: bool, ffmpegOk: bool): string {
    var extra := "Arquivo: " + fileName;
    var extra := if backend == DefaultBackend && !edgeInstalled then extra + "\n" + EdgeWarningText else extra;
    if !ffmpegOk then extra + "\n" + FfmpegWarningText else extra
  }

  /** The completion text is the file line followed by one line per warning, in order, joined by line breaks. */
  lemma DoneTextLines(fileName: string, backend: string, edgeInstalled: bool, ffmpegOk: bool)
    ensures var ws := Warnings(backend, edgeInstalled, ffmpegOk);
      DoneText(fileName, backend, edgeInstalled, ffmpegOk)
        == JoinLines(["Arquivo: " + fileName] + seq(|ws|, k requires 0 <= k < |ws| => WarningText(ws[k])))
  {
    var ws := Warnings(backend, edgeInstalled, ffmpegOk);
    var head := "Arquivo: " + fileName;
    var lines := [head] + seq(|ws|, k requires 0 <= k < |ws| => WarningText(ws[k]));
    if |ws| == 2 {
      assert lines == [head, EdgeWarningText, FfmpegWarningText];
      assert lines[1..][1..] == [FfmpegWarningText];
      assert JoinLines(lines[1..]) == EdgeWarningText + "\n" + FfmpegWarningText;
      assert JoinLines(lines) == head + "\n" + (EdgeWarningText + "\n" + FfmpegWarningText);
    } else if |ws| == 1 {
      assert lines == [head, WarningText(ws[0])];
      assert lines[1..] == [WarningText(ws[0])];
    } else {
      assert lines == [head];
    }
  }

  // ---------------------------------------------------------------------------
  // Error dialogs after a failed generation
  // ---------------------------------------------------------------------------

  /** The word whose presence marks a failure as a cancellation. */
  const CancelWord: string := "cancelada"

  /** The message the generation worker raises when it sees the stop flag. */
  const CancelMessage: string := "Operação " + CancelWord + " pelo usuário."

  /** A failed generation shows an error dialog unless its lower-cased message mentions "cancelada". */
  predicate ShowsErrorDialog(msg: string) {
    !Contains(Lower(msg), CancelWord)
  }

  lemma CancelWordLower()
    ensures Lower(CancelWord) == CancelWord
  {
    var w := CancelWord;
    assert w[0] == 'c' && w[1] == 'a' && w[2] == 'n' && w[3] == 'c' && w[4] == 'e'
      && w[5] == 'l' && w[6] == 'a' && w[7] == 'd' && w[8] == 'a';
    forall i | 0 <= i < |w|
      ensures Lower(w)[i] == w[i]
    {
      assert 'a' <= w[i] <= 'z';
    }
  }

  /** A cancellation by the user never shows an error dialog. */
  lemma CancelIsSilent()
    ensures !ShowsErrorDialog(CancelMessage)
  {
    var a := "Operação ";
    var l := Lower(CancelMessage);
    CancelWordLower();
    assert l[|a|..|a| + |CancelWord|] == Lower(CancelWord);
    assert OccursAt(l, CancelWord, |a|);
  }

  // ---------------------------------------------------------------------------
  // Progress
  // ---------------------------------------------------------------------------

  /** `_set_progress`: the value shown is clamped to 0..100. */
  function ClampPercent(p: int): (r: int)
    ensures 0 <= r <= 100
    ensures 0 <= p <= 100 ==> r == p
    ensures p < 0 ==> r == 0
    ensures p > 100 ==> r == 100
  {
    if p < 0 then 0 else if p > 100 then 100 else p
  }

  lemma ClampMonotone(p: int, q: int)
    requires p <= q
    ensures ClampPercent(p) <= ClampPercent(q)
  {
  }

  /** `max(1, len(chunks))`. */
  function Total(n: nat): (t: nat)
    ensures t >= 1 && t >= n
  {
    if n < 1 then 1 else n
  }

  /** The percentage shown as chunk `idx` of `total` starts: `idx / total` of `scale`, rounded down. */
  function Percent(idx: nat, total: nat, scale: nat): nat
    requires total >= 1
  {
    idx * scale / total
  }

  /** Reading scales to 100, generating to 95 (the last 5 are left for the concatenation). */
  function ReadPercent(idx: nat, total: nat): nat
    requires total >= 1
  {
    Percent(idx, total, 100)
  }

  function GenPercent(idx: nat, total: nat): nat
    requires total >= 1
  {
    Percent(idx, total, 95)
  }

  lemma DivMonotone(a: nat, b: nat, d: nat)
    requires a <= b && d >= 1
    ensures a / d <= b / d
  {
    var q := a / d;
    var q' := b / d;
    assert q * d <= a;
    assert b < (q' + 1) * d;
    MulCancel(q, q' + 1, d);
  }

  lemma MulCancel(x: int, y: int, t: int)
    requires t > 0 && x * t < y * t
    ensures x < y
  {
  }

  /**
   * Per-chunk progress never goes down, never passes `scale`, and reaches it
   * exactly at the last chunk.
   */
  lemma PercentMonotone(i: nat, j: nat, total: nat, scale: nat)
    requires i <= j <= total && total >= 1
    ensures Percent(i, total, scale) <= Percent(j, total, scale) <= scale
    ensures Percent(total, total, scale) == scale
  {
    MulMonotone(i, j, scale);
    MulMonotone(j, total, scale);
    DivMonotone(i * scale, j * scale, total);
    DivMonotone(j * scale, total * scale, total);
    MulDiv(total, scale);
  }

  lemma MulDiv(t: nat, s: nat)
    requires t >= 1
    ensures t * s / t == s
  {
    assert s * t <= t * s < (s + 1) * t;
    DivUnique(t * s, t, s);
  }

  /** The quotient is the one `q` with `q * d <= n < (q + 1) * d`. */
  lemma DivUnique(n: nat, d: nat, q: nat)
    requires d >= 1 && q * d <= n < (q + 1) * d
    ensures n / d == q
  {
    assert (n / d) * d <= n < (n / d + 1) * d;
    MulCancel(n / d, q + 1, d);
    MulCancel(q, n / d + 1, d);
  }

  lemma MulMonotone(a: nat, b: nat, c: nat)
    requires a <= b
    ensures a * c <= b * c
  {
  }

  // ---------------------------------------------------------------------------
  // Which text is spoken
  // ---------------------------------------------------------------------------

  /**
   * `_get_text_to_speak`: the stripped text; with `exclude_first_line`, the
   * stripped text after the first line, unless that is blank.
   */
  function TextToSpeak(text: string, excludeFirstLine: bool): string {
    var raw := Strip(text);
    if raw == [] then []
    else if excludeFirstLine then
      var lines := SplitLines(raw);
      var body := Strip(JoinLines(lines[1..]));
      if body == [] then raw else body
    else raw
  }

  /**
   * The spoken text is blank exactly when the input is; without the option it is
   * the stripped input, and with it everything after the first line break,
   * stripped, or the whole stripped input when nothing follows that break.
   */
  lemma TextToSpeakSpec(text: string, excludeFirstLine: bool)
    ensures TextToSpeak(text, excludeFirstLine) == [] <==> AllSpace(text)
    ensures !excludeFirstLine ==> TextToSpeak(text, excludeFirstLine) == Strip(text)
    ensures var raw := Strip(text); var p := Find(raw, '\n');
      excludeFirstLine && raw != [] ==>
        TextToSpeak(text, excludeFirstLine) == if p < 0 || AllSpace(raw[p + 1..]) then raw else Strip(raw[p + 1..])
  {
    var raw := Strip(text);
    if raw != [] && excludeFirstLine {
      var p := Find(raw, '\n');
      var lines := SplitLines(raw);
      if p < 0 {
        assert lines == [raw];
        assert lines[1..] == [];
      } else {
        var rest := raw[p + 1..];
        assert lines == [raw[..p]] + SplitLines(rest);
        assert lines[1..] == SplitLines(rest);
        if rest != [] {
          assert rest[|rest| - 1] == raw[|raw| - 1];
        }
        assert DropFinalNewline(rest) == rest;
      }
    }
  }

  // ---------------------------------------------------------------------------
  // Stop and pause at chunk boundaries
  // ---------------------------------------------------------------------------

  /** An operator action while a job runs: the pause button or the stop button. */
  datatype Op = PausePressed | StopPressed

  /** The job flags: the pause gate (`_pause_event` set), `_stop_event`, `_restart_after_stop`. */
  datatype Flags = Flags(gateOpen: bool, stop: bool, restart: bool)

  /** `pause_job` toggles the gate; `stop_job` arms the restart, sets stop and opens the gate. */
  function AfterOp(f: Flags, op: Op): Flags {
    match op
    case PausePressed => f.(gateOpen := !f.gateOpen)
    case StopPressed => Flags(true, true, true)
  }

  function AfterOps(f: Flags, ops: seq<Op>): Flags
    decreases |ops|
  {
    if ops == [] then f else AfterOps(AfterOp(f, ops[0]), ops[1..])
  }

  /** Nothing a running job's controls do clears the stop flag or the restart request. */
  lemma {:induction false} StopSticks(f: Flags, ops: seq<Op>)
    requires f.stop && f.restart
    ensures AfterOps(f, ops).stop && AfterOps(f, ops).restart
    decreases |ops|
  {
    if ops != [] {
      StopSticks(AfterOp(f, ops[0]), ops[1..]);
    }
  }

  /** Pressing stop at any point sets the stop flag and arms the restart. */
  lemma {:induction false} StopTakesHold(f: Flags, ops: seq<Op>)
    requires StopPressed in ops
    ensures AfterOps(f, ops).stop && AfterOps(f, ops).restart
    decreases |ops|
  {
    if ops[0] == StopPressed {
      StopSticks(AfterOp(f, ops[0]), ops[1..]);
    } else {
      assert StopPressed in ops[1..];
      StopTakesHold(AfterOp(f, ops[0]), ops[1..]);
    }
  }

  function PauseCount(ops: seq<Op>): nat {
    if ops == [] then 0 else (if ops[0] == PausePressed then 1 else 0) + PauseCount(ops[1..])
  }

  /** Without stop, the controls only toggle the gate, once per press of pause. */
  lemma {:induction false} PausesToggle(f: Flags, ops: seq<Op>)
    requires StopPressed !in ops
    ensures AfterOps(f, ops) == f.(gateOpen := f.gateOpen == (PauseCount(ops) % 2 == 0))
    decreases |ops|
  {
    if ops != [] {
      assert StopPressed !in ops[1..];
      PausesToggle(AfterOp(f, ops[0]), ops[1..]);
    }
  }

  /** What the engine call for one chunk does: it returns (with the MP3 bytes, when generating) or raises. */
  datatype Call = Returned(audio: seq<Concat.Byte>) | Raised(msg: string)

  /**
   * The operator's actions around chunk boundary `k`: those before the worker's
   * first stop check, those before it waits on the pause gate, and what the
   * engine call for the chunk does.
   */
  datatype Step = Step(beforeCheck: seq<Op>, beforeWait: seq<Op>, call: Call)

  /** Boundaries beyond the given steps have no operator action and a call that returns. */
  function StepAt(steps: seq<Step>, k: nat): Step {
    if k < |steps| then steps[k] else Step([], [], Returned([]))
  }

  /**
   * How a chunk loop ends: every chunk done, the stop flag seen at a check,
   * waiting at a closed gate (the worker waits for further input), or an engine
   * call raising.
   */
  datatype WalkEnd = AllDone | StopSeen | GateClosed | CallFailed(msg: string)

  /** The end, the flags then, and how many chunks were started (their engine call made). */
  datatype Walked = Walked(end: WalkEnd, flags: Flags, started: nat)

  /**
   * The chunk loop of `read_now` and `generate_mp3` from chunk `k` of `n` on:
   * check stop, wait on the gate, check stop again, then make the chunk's call.
   */
  function Walk(f: Flags, n: nat, steps: seq<Step>, k: nat): (w: Walked)
    requires k <= n
    ensures k <= w.started <= n
    ensures w.end == AllDone ==> w.started == n && (k < n ==> !w.flags.stop && w.flags.gateOpen)
    ensures w.end == StopSeen ==> w.flags.stop
    ensures w.end == GateClosed ==> !w.flags.gateOpen
    ensures w.end.CallFailed? ==> w.started > k && !w.flags.stop
    decreases n - k
  {
    if k == n then Walked(AllDone, f, k)
    else
      var st := StepAt(steps, k);
      var f1 := AfterOps(f, st.beforeCheck);
      if f1.stop then Walked(StopSeen, f1, k)
      else
        var f2 := AfterOps(f1, st.beforeWait);
        if !f2.gateOpen then Walked(GateClosed, f2, k)
        else if f2.stop then Walked(StopSeen, f2, k)
        else match st.call
          case Raised(msg) => Walked(CallFailed(msg), f2, k + 1)
          case Returned(_) => Walk(f2, n, steps, k + 1)
  }

  /**
   * No chunk is started once stop has been pressed: a stop at boundary `j`
   * (before either check) leaves chunk `j` and every later one unstarted.
   */
  lemma {:induction false} StopPreventsLaterChunks(f: Flags, n: nat, steps: seq<Step>, k: nat, j: nat)
    requires k <= j < n
    requires StopPressed in StepAt(steps, j).beforeCheck + StepAt(steps, j).beforeWait
    ensures Walk(f, n, steps, k).started <= j
    ensures Walk(f, n, steps, k).end != AllDone
    decreases n - k
  {
    var st := StepAt(steps, k);
    var f1 := AfterOps(f, st.beforeCheck);
    if !f1.stop {
      var f2 := AfterOps(f1, st.beforeWait);
      if k == j {
        if StopPressed in st.beforeCheck {
          StopTakesHold(f, st.beforeCheck);
        } else {
          assert StopPressed in st.beforeWait;
          StopTakesHold(f1, st.beforeWait);
        }
      } else if f2.gateOpen && !f2.stop && st.call.Returned? {
        StopPreventsLaterChunks(f2, n, steps, k + 1, j);
      }
    }
  }

  /** A stop already set when the loop reaches a boundary ends it there. */
  lemma StopSetEndsWalk(f: Flags, n: nat, steps: seq<Step>, k: nat)
    requires k < n && f.stop && f.restart
    ensures Walk(f, n, steps, k) == Walked(StopSeen, AfterOps(f, StepAt(steps, k).beforeCheck), k)
  {
    StopSticks(f, StepAt(steps, k).beforeCheck);
  }

  /** Boundary `k` is quiet: no operator action, and the call returns. */
  predicate Quiet(st: Step) {
    st.beforeCheck == [] && st.beforeWait == [] && st.call.Returned?
  }

  /** With the gate open, no stop, and no operator action or failure, every chunk is started and the flags are as before. */
  lemma {:induction false} QuietWalkCompletes(f: Flags, n: nat, steps: seq<Step>, k: nat)
    requires k <= n && f.gateOpen && !f.stop
    requires forall j :: k <= j < n ==> Quiet(StepAt(steps, j))
    ensures Walk(f, n, steps, k) == Walked(AllDone, f, n)
    decreases n - k
  {
    if k < n {
      assert Quiet(StepAt(steps, k));
      QuietWalkCompletes(f, n, steps, k + 1);
    }
  }

  /** Pausing and resuming before a check changes nothing. */
  lemma PauseResume(f: Flags, ops: seq<Op>)
    ensures AfterOps(f, [PausePressed, PausePressed] + ops) == AfterOps(f, ops)
  {
    var ops2 := [PausePressed, PausePressed] + ops;
    assert ops2[1..][1..] == ops;
    assert AfterOp(AfterOp(f, PausePressed), PausePressed) == f;
  }
}
