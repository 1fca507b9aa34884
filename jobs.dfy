/**
 * The application object of `main.py` (`class App`) without its widgets: the
 * busy lock, the pause gate and stop flag shared with the worker, the engine
 * (re)initialisation, the progress bar, and the two jobs `read_now` and
 * `generate_mp3` with their chunk loops.
 *
 * The worker thread and the user's button presses are interleaved through the
 * `Step`s of `JobPolicy`: before each chunk's stop check, while it waits on the
 * pause gate, and (`trailing`) after the last chunk. A callback scheduled with
 * `after(0, ...)` is applied where it is scheduled; what the user sees is
 * recorded as `Event`s in `log`.
 */
module Jobs {
  import opened Text
  import opened Wrappers
  import Segmenter
  import FileNames
  import opened Concat
  import opened JobPolicy

  /** `_current_job`: "idle", "read" or "gen". */
  datatype Job = Idle | Reading | Generating

  /** The voice a part is synthesized with: Edge TTS, or gTTS as the fallback. */
  datatype Speech = EdgeVoice(voice: string, rate: string, pitch: string) | Gtts(tld: string, slow: bool)

  /** How the final MP3 was put together. */
  datatype Written = ViaFfmpeg(manifest: string) | Naive(bytes: seq<Byte>)

  /** What the user or the output folder can observe. */
  datatype Event =
    | Spoke(chunk: string)
    | Synthesize(path: string, chunk: string, speech: Speech)
    | Wrote(name: string, how: Written)
    | ErrorDialog(title: string, message: string)
    | DoneDialog(extra: string)

  /** How a request to read or to generate ended. */
  datatype Outcome =
    | Ignored                              // a job was already running
    | Refused(title: string, message: string)  // a guard showed an error dialog
    | Waiting(w: Walked)                   // the worker sits on the closed pause gate
    | Finished(w: Walked, message: string) // the worker ended with this status line

  const ErrorTitle: string := "Erro"
  const PasteTextMessage: string := "Cole um texto na caixa (Ctrl+V)."
  const UnavailableTitle: string := "Indisponível"
  const UnavailableMessage: string := "Leitura offline não está ativa. Instale: pip install pyttsx3"
  const NothingToNarrateMessage: string := "Nada para narrar."
  const ReadFailedTitle: string := "Erro ao ler"
  const ReadFailedPrefix: string := "Falhou: "
  const ReadCancelledStatus: string := "Leitura cancelada."
  const ReadDoneStatus: string := "Leitura concluída."
  const GenFailedTitle: string := "Erro ao gerar MP3"
  const GenFailedPrefix: string := "Falhou/cancelado: "
  const GenDonePrefix: string := "OK: "

  /** Reading aloud never uses chunks shorter than 800 characters: `max(800, chunk_max_chars)`. */
  function ReadChunkBound(chunkMaxChars: int): (m: int)
    ensures m >= 800 && m >= chunkMaxChars
    ensures m == 800 || m == chunkMaxChars
  {
    if chunkMaxChars > 800 then chunkMaxChars else 800
  }

  /** The chunks `read_now` speaks. */
  function ReadChunks(text: string, cfg: Config): seq<string> {
    Segmenter.Segment(TextToSpeak(text, cfg.excludeFirstLine), ReadChunkBound(cfg.chunkMaxChars))
  }

  /** The chunks `generate_mp3` synthesizes. */
  function GenChunks(text: string, cfg: Config): seq<string> {
    Segmenter.Segment(TextToSpeak(text, cfg.excludeFirstLine), cfg.chunkMaxChars)
  }

  /** The voice chosen from the configuration snapshot taken when generation starts. */
  function SpeechFor(snap: Snapshot, edgeInstalled: bool): Speech {
    if UseEdge(snap.backend, edgeInstalled) then EdgeVoice(snap.voice, snap.rate, snap.pitch)
    else Gtts(snap.tld, snap.slow)
  }

  /** The flags right after `_reset_job_flags`. */
  function StartFlags(restart: bool): Flags {
    Flags(true, false, restart)
  }

  /** The events of speaking `chunks` one after another. */
  function SpokenLog(chunks: seq<string>): (log: seq<Event>)
    ensures |log| == |chunks|
  {
    seq(|chunks|, k requires 0 <= k < |chunks| => Spoke(chunks[k]))
  }

  /** `td / f"part_{idx:04d}.mp3"`. */
  function PartPath(dir: string, idx: nat): string {
    dir + "/part_" + ZeroPad(Dec(idx), 4) + ".mp3"
  }

  /** The first `n` part files, numbered from 1. */
  function PartPaths(dir: string, n: nat): (paths: seq<string>)
    ensures |paths| == n
  {
    seq(n, k requires 0 <= k < n => PartPath(dir, k + 1))
  }

  /** The events of synthesizing `chunks` into the part files, in order. */
  function SynthLog(chunks: seq<string>, dir: string, speech: Speech): (log: seq<Event>)
    ensures |log| == |chunks|
  {
    seq(|chunks|, k requires 0 <= k < |chunks| => Synthesize(PartPath(dir, k + 1), chunks[k], speech))
  }

  /** The audio a synthesis call produced; a call that raised produced none. */
  function CallAudio(c: Call): seq<Byte> {
    match c
    case Returned(audio) => audio
    case Raised(_) => []
  }

  /** The audio of the first `n` parts. */
  function PartAudios(steps: seq<Step>, n: nat): (audio: seq<seq<Byte>>)
    ensures |audio| == n
  {
    seq(n, k requires 0 <= k < n => CallAudio(StepAt(steps, k).call))
  }

  /** How many chunks a walk finished: a failed call started its chunk but did not finish it. */
  function PartsDone(w: Walked): nat {
    if w.end.CallFailed? && w.started > 0 then w.started - 1 else w.started
  }

  /** The status line a read job ends with, given whether stop is set at its end. */
  function ReadStatus(end: WalkEnd, stop: bool): string {
    if end.CallFailed? then ReadFailedPrefix + end.msg
    else if stop then ReadCancelledStatus
    else ReadDoneStatus
  }

  /**
   * The exception a generation job ends with, if any: the cancellation raised by
   * the loop, the synthesis error, or the concatenation error.
   */
  function GenFailure(end: WalkEnd, ffmpegOk: bool, parts: nat, run: ProcessResult): (failure: Option<string>)
    ensures failure.None? ==> end == AllDone || end == GateClosed
    ensures end == AllDone && !ffmpegOk ==> failure.None?
  {
    match end
    case StopSeen => Some(CancelMessage)
    case CallFailed(msg) => Some(msg)
    case _ =>
      if !ffmpegOk then None
      else if parts == 0 then Some(NoPartsError)
      else if run.returnCode != 0 then Some(FfmpegFailedPrefix + Strip(ErrorOutput(run)))
      else None
  }

  /** What was written for `parts` parts, by FFmpeg's list file or by plain concatenation. */
  function WrittenFor(ffmpegOk: bool, dir: string, steps: seq<Step>, parts: nat): Written {
    if ffmpegOk then ViaFfmpeg(JoinLines(ManifestLines(PartPaths(dir, parts))))
    else Naive(Flatten(PartAudios(steps, parts)))
  }

  /** The events a generation job adds after its chunk loop: the file written, then the closing dialog. */
  function GenTail(failure: Option<string>, name: string, how: Written, extra: string): seq<Event> {
    (if failure.None? then [Wrote(name, how)] else []) + EndDialogs(failure, extra)
  }

  /** The done dialog, or the error dialog unless the exception is a cancellation. */
  function EndDialogs(failure: Option<string>, extra: string): seq<Event> {
    match failure
    case None => [DoneDialog(extra)]
    case Some(msg) => if ShowsErrorDialog(msg) then [ErrorDialog(GenFailedTitle, msg)] else []
  }

  /** The status line a generation job ends with. */
  function GenStatus(failure: Option<string>, name: string): string {
    match failure
    case None => GenDonePrefix + name
    case Some(msg) => GenFailedPrefix + msg
  }

  class App {
    var busy: bool            // `_is_busy`
    var gateOpen: bool        // `_pause_event` is set
    var stopSet: bool         // `_stop_event` is set
    var restartAfterStop: bool
    var currentJob: Job
    var cfg: Config           // the applied configuration
    const engineInstalled: bool  // pyttsx3 could be imported
    const edgeInstalled: bool    // edge_tts could be imported
    var engineReady: bool     // `_py_engine` is not None
    var reinits: nat          // engine initialisations attempted
    var progress: int         // the progress bar
    var log: seq<Event>
    var outDir: set<string>   // the file names in the output folder

    /**
     * Between jobs the pause gate is open and no stop or restart is pending; a
     * busy application always has a job; only an installed engine can be ready.
     */
    predicate Valid()
      reads this
    {
      && 0 <= progress <= 100
      && (busy ==> currentJob != Idle)
      && (currentJob == Idle ==> gateOpen && !stopSet && !restartAfterStop)
      && (engineReady ==> engineInstalled)
    }

    function JobFlags(): Flags
      reads this
    {
      Flags(gateOpen, stopSet, restartAfterStop)
    }

    /** The state `App.__init__` leaves: nothing running, gate open, no engine yet. */
    constructor (cfg: Config, engineInstalled: bool, edgeInstalled: bool, outDir: set<string>)
      ensures Valid()
      ensures this.cfg == cfg && this.outDir == outDir
      ensures this.engineInstalled == engineInstalled && this.edgeInstalled == edgeInstalled
      ensures !busy && currentJob == Idle && JobFlags() == StartFlags(false)
      ensures !engineReady && reinits == 0 && progress == 0 && log == []
    {
      busy := false;
      gateOpen := true;
      stopSet := false;
      restartAfterStop := false;
      currentJob := Idle;
      this.cfg := cfg;
      this.engineInstalled := engineInstalled;
      this.edgeInstalled := edgeInstalled;
      engineReady := false;
      reinits := 0;
      progress := 0;
      log := [];
      this.outDir := outDir;
    }

    /**
     * `_reinit_pyttsx3` (also what `_init_pyttsx3` does once the library is
     * there): without pyttsx3 nothing happens; otherwise the engine is rebuilt,
     * and a successful build releases the busy lock.
     */
    method ReinitEngine(initOk: bool)
      requires Valid()
      modifies this
      ensures Valid()
      ensures reinits == old(reinits) + (if engineInstalled then 1 else 0)
      ensures engineReady == (if engineInstalled then initOk else old(engineReady))
      ensures busy == (old(busy) && !(engineInstalled && initOk))
      ensures JobFlags() == old(JobFlags()) && currentJob == old(currentJob) && cfg == old(cfg)
      ensures progress == old(progress) && log == old(log) && outDir == old(outDir)
    {
      if !engineInstalled {
        return;
      }
      reinits := reinits + 1;
      engineReady := initOk;
      if initOk {
        busy := false;
      }
    }

    /** `_set_progress`: the bar shows the value clamped to 0..100. */
    method SetProgress(pct: int)
      requires Valid()
      modifies this
      ensures Valid()
      ensures progress == ClampPercent(pct)
      ensures busy == old(busy) && JobFlags() == old(JobFlags()) && currentJob == old(currentJob)
      ensures cfg == old(cfg) && engineReady == old(engineReady) && reinits == old(reinits)
      ensures log == old(log) && outDir == old(outDir)
    {
      progress := ClampPercent(pct);
    }

    /** `pause_job`: while a job runs, toggles the pause gate; otherwise does nothing. */
    method PauseJob()
      requires Valid()
      modifies this
      ensures Valid()
      ensures JobFlags() == if old(busy) then AfterOp(old(JobFlags()), PausePressed) else old(JobFlags())
      ensures busy == old(busy) && currentJob == old(currentJob) && cfg == old(cfg)
      ensures engineReady == old(engineReady) && reinits == old(reinits)
      ensures progress == old(progress) && log == old(log) && outDir == old(outDir)
    {
      if !busy {
        return;
      }
      gateOpen := !gateOpen;
    }

    /**
     * `stop_job`: while a job runs, asks for a restart of the engine, sets the
     * stop flag and opens the gate so a paused worker sees the stop.
     */
    method StopJob()
      requires Valid()
      modifies this
      ensures Valid()
      ensures JobFlags() == if old(busy) then AfterOp(old(JobFlags()), StopPressed) else old(JobFlags())
      ensures busy == old(busy) && currentJob == old(currentJob) && cfg == old(cfg)
      ensures engineReady == old(engineReady) && reinits == old(reinits)
      ensures progress == old(progress) && log == old(log) && outDir == old(outDir)
    {
      if !busy {
        return;
      }
      restartAfterStop := true;
      stopSet := true;
      gateOpen := true;
    }

    /** The user's presses, one after another, while a job runs. */
    method Deliver(ops: seq<Op>)
      requires Valid() && busy
      modifies this
      ensures Valid()
      ensures JobFlags() == AfterOps(old(JobFlags()), ops)
      ensures busy && currentJob == old(currentJob) && cfg == old(cfg)
      ensures engineReady == old(engineReady) && reinits == old(reinits)
      ensures progress == old(progress) && log == old(log) && outDir == old(outDir)
    {
      var k := 0;
      while k < |ops|
        invariant 0 <= k <= |ops|
        invariant Valid() && busy
        invariant AfterOps(JobFlags(), ops[k..]) == AfterOps(old(JobFlags()), ops)
        invariant currentJob == old(currentJob) && cfg == old(cfg)
        invariant engineReady == old(engineReady) && reinits == old(reinits)
        invariant progress == old(progress) && log == old(log) && outDir == old(outDir)
      {
        assert ops[k..] == [ops[k]] + ops[k + 1..];
        if ops[k] == PausePressed {
          PauseJob();
        } else {
          StopJob();
        }
        k := k + 1;
      }
      assert ops[k..] == [];
    }

    /** `_reset_job_flags`: stop cleared and gate opened; a pending restart stays. */
    method ResetJobFlags()
      requires Valid()
      modifies this
      ensures Valid()
      ensures JobFlags() == StartFlags(old(restartAfterStop))
      ensures busy == old(busy) && currentJob == old(currentJob) && cfg == old(cfg)
      ensures engineReady == old(engineReady) && reinits == old(reinits)
      ensures progress == old(progress) && log == old(log) && outDir == old(outDir)
    {
      stopSet := false;
      gateOpen := true;
    }

    /**
     * `_end_job_cleanup`: back to idle with the flags reset; a restart asked for
     * by stop is consumed and rebuilds the engine.
     */
    method EndJobCleanup(initOk: bool)
      requires Valid() && !busy
      modifies this
      ensures Valid()
      ensures currentJob == Idle && JobFlags() == StartFlags(false) && !busy
      ensures reinits == old(reinits) + (if old(restartAfterStop) && engineInstalled then 1 else 0)
      ensures engineReady == if old(restartAfterStop) && engineInstalled then initOk else old(engineReady)
      ensures cfg == old(cfg) && progress == old(progress) && log == old(log) && outDir == old(outDir)
    {
      ResetJobFlags();
      if restartAfterStop {
        restartAfterStop := false;
        ReinitEngine(initOk);
      }
      currentJob := Idle;
    }

    /**
     * `save_and_apply_config`: refused while a job runs; otherwise the staged
     * values become the applied configuration and the engine is rebuilt.
     */
    method SaveAndApplyConfig(staged: Staged, initOk: bool)
      requires Valid()
      modifies this
      ensures Valid()
      ensures cfg == if old(busy) then old(cfg) else ApplyStaged(staged)
      ensures reinits == old(reinits) + (if !old(busy) && engineInstalled then 1 else 0)
      ensures engineReady == if !old(busy) && engineInstalled then initOk else old(engineReady)
      ensures busy == old(busy) && JobFlags() == old(JobFlags()) && currentJob == old(currentJob)
      ensures progress == old(progress) && log == old(log) && outDir == old(outDir)
    {
      if busy {
        return;
      }
      cfg := ApplyStaged(staged);
      ReinitEngine(initOk);
    }

    /** `restart_engine`: refused while a job runs; otherwise rebuilds the engine. */
    method RestartEngine(initOk: bool)
      requires Valid()
      modifies this
      ensures Valid()
      ensures reinits == old(reinits) + (if !old(busy) && engineInstalled then 1 else 0)
      ensures engineReady == if !old(busy) && engineInstalled then initOk else old(engineReady)
      ensures busy == old(busy) && JobFlags() == old(JobFlags()) && currentJob == old(currentJob)
      ensures cfg == old(cfg) && progress == old(progress) && log == old(log) && outDir == old(outDir)
    {
      if busy {
        return;
      }
      ReinitEngine(initOk);
    }

    /**
     * The loop of `read_now`'s worker. The result is the walk `JobPolicy.Walk`
     * describes, and exactly the chunks it started were spoken, in order.
     */
    method SpeakChunks(chunks: seq<string>, steps: seq<Step>) returns (w: Walked)
      requires Valid() && busy && progress == 0
      modifies this
      ensures Valid()
      ensures w == Walk(old(JobFlags()), |chunks|, steps, 0)
      ensures JobFlags() == w.flags
      ensures log == old(log) + SpokenLog(chunks[..w.started])
      ensures progress == ClampPercent(ReadPercent(w.started, Total(|chunks|)))
      ensures busy && currentJob == old(currentJob) && cfg == old(cfg)
      ensures engineReady == old(engineReady) && reinits == old(reinits) && outDir == old(outDir)
    {
      var k := 0;
      while k < |chunks|
        invariant 0 <= k <= |chunks|
        invariant Valid() && busy
        invariant Walk(JobFlags(), |chunks|, steps, k) == Walk(old(JobFlags()), |chunks|, steps, 0)
        invariant log == old(log) + SpokenLog(chunks[..k])
        invariant progress == ClampPercent(ReadPercent(k, Total(|chunks|)))
        invariant currentJob == old(currentJob) && cfg == old(cfg)
        invariant engineReady == old(engineReady) && reinits == old(reinits) && outDir == old(outDir)
        decreases |chunks| - k
      {
        SpokenLogStep(old(log), chunks, k);
        var end := SpeakOne(chunks, steps, k);
        if end.Some? {
          return Walked(end.value, JobFlags(), if end.value.CallFailed? then k + 1 else k);
        }
        k := k + 1;
      }
      assert chunks[..k] == chunks;
      w := Walked(AllDone, JobFlags(), k);
    }

    /**
     * One round of that loop: stop is checked, the worker waits on the pause
     * gate and checks stop again; then the progress is set to
     * `int(idx / total * 100)` and chunk `k` is spoken. `None` means the loop
     * goes on with the next chunk.
     */
    method SpeakOne(chunks: seq<string>, steps: seq<Step>, k: nat) returns (end: Option<WalkEnd>)
      requires Valid() && busy && k < |chunks|
      modifies this
      ensures Valid() && busy
      ensures end.None? ==>
        && Walk(JobFlags(), |chunks|, steps, k + 1) == Walk(old(JobFlags()), |chunks|, steps, k)
        && log == old(log) + [Spoke(chunks[k])]
        && progress == ClampPercent(ReadPercent(k + 1, Total(|chunks|)))
      ensures end.Some? ==>
        var spoke := end.value.CallFailed?;
        && Walk(old(JobFlags()), |chunks|, steps, k) == Walked(end.value, JobFlags(), if spoke then k + 1 else k)
        && log == old(log) + (if spoke then [Spoke(chunks[k])] else [])
        && progress == (if spoke then ClampPercent(ReadPercent(k + 1, Total(|chunks|))) else old(progress))
      ensures currentJob == old(currentJob) && cfg == old(cfg)
      ensures engineReady == old(engineReady) && reinits == old(reinits) && outDir == old(outDir)
    {
      var st := StepAt(steps, k);
      Deliver(st.beforeCheck);
      if stopSet {
        return Some(StopSeen);
      }
      Deliver(st.beforeWait);
      if !gateOpen {
        return Some(GateClosed);
      }
      if stopSet {
        return Some(StopSeen);
      }
      SetProgress(ReadPercent(k + 1, Total(|chunks|)));
      log := log + [Spoke(chunks[k])];
      if st.call.Raised? {
        return Some(CallFailed(st.call.msg));
      }
      end := None;
    }

    /**
     * `read_now`. Refused while busy, for blank text and without a ready engine;
     * otherwise the text to speak is split with a bound of at least 800
     * characters and the worker runs on the chunks.
     */
    method ReadNow(text: string, steps: seq<Step>, trailing: seq<Op>, initOk: bool) returns (outcome: Outcome)
      requires Valid()
      modifies this
      ensures Valid()
      ensures old(busy) ==> outcome == Ignored && unchanged(this)
      ensures !old(busy) && TextToSpeak(text, old(cfg).excludeFirstLine) == [] ==>
        outcome == Refused(ErrorTitle, PasteTextMessage)
      ensures !old(busy) && TextToSpeak(text, old(cfg).excludeFirstLine) != [] && !old(engineReady) ==>
        outcome == Refused(UnavailableTitle, UnavailableMessage)
      ensures outcome.Refused? ==>
        && log == old(log) + [ErrorDialog(outcome.title, outcome.message)]
        && JobFlags() == old(JobFlags()) && currentJob == old(currentJob) && !busy
        && engineReady == old(engineReady) && reinits == old(reinits) && progress == old(progress)
      ensures outcome.Waiting? || outcome.Finished? ==>
        !old(busy) && TextToSpeak(text, old(cfg).excludeFirstLine) != [] && old(engineReady)
        && ReadEnded(ReadChunks(text, old(cfg)), steps, trailing, initOk,
                     old(restartAfterStop), old(log), old(reinits), outcome)
      ensures cfg == old(cfg) && outDir == old(outDir)
    {
      if busy {
        return Ignored;
      }
      var speak := TextToSpeak(text, cfg.excludeFirstLine);
      if speak == [] {
        log := log + [ErrorDialog(ErrorTitle, PasteTextMessage)];
        return Refused(ErrorTitle, PasteTextMessage);
      }
      if !engineInstalled || !engineReady {
        log := log + [ErrorDialog(UnavailableTitle, UnavailableMessage)];
        return Refused(UnavailableTitle, UnavailableMessage);
      }
      outcome := StartRead(text, steps, trailing, initOk);
    }

    /** The part of `read_now` past its guards: reset the flags, split, start the worker. */
    method StartRead(text: string, steps: seq<Step>, trailing: seq<Op>, initOk: bool) returns (outcome: Outcome)
      requires Valid() && !busy && engineReady
      requires TextToSpeak(text, cfg.excludeFirstLine) != []
      modifies this
      ensures Valid()
      ensures ReadEnded(ReadChunks(text, old(cfg)), steps, trailing, initOk,
                        old(restartAfterStop), old(log), old(reinits), outcome)
      ensures cfg == old(cfg) && outDir == old(outDir)
    {
      ResetJobFlags();
      currentJob := Reading;
      SetProgress(0);
      var chunks := Segmenter.SmartSplitText(TextToSpeak(text, cfg.excludeFirstLine), ReadChunkBound(cfg.chunkMaxChars));
      busy := true;
      outcome := RunRead(chunks, steps, trailing, initOk);
    }

    /**
     * Where a read job over `chunks` stands once its worker returns or blocks,
     * from the flags, log and engine count it started with. Exactly the chunks
     * the walk started were spoken, in order. A blocked worker keeps the job
     * busy. Otherwise the job ended failed (the engine is dropped and an error
     * dialog shown), cancelled (stop set at the end) or done (progress 100),
     * and the cleanup left the application idle, rebuilding the engine if stop
     * was pressed.
     */
    predicate ReadEnded(chunks: seq<string>, steps: seq<Step>, trailing: seq<Op>, initOk: bool,
                        restart0: bool, log0: seq<Event>, reinits0: nat, outcome: Outcome)
      reads this
    {
      && (outcome.Waiting? || outcome.Finished?)
      && var w := outcome.w;
      && w == Walk(StartFlags(restart0), |chunks|, steps, 0)
      && w.started <= |chunks|
      && (outcome.Waiting? ==>
           && w.end == GateClosed && busy && currentJob == Reading && JobFlags() == w.flags
           && log == log0 + SpokenLog(chunks[..w.started])
           && progress == ClampPercent(ReadPercent(w.started, Total(|chunks|)))
           && engineReady && reinits == reinits0)
      && (outcome.Finished? ==>
           var last := AfterOps(w.flags, trailing);
           && w.end != GateClosed
           && outcome.message == ReadStatus(w.end, last.stop)
           && log == log0 + SpokenLog(chunks[..w.started])
                + (if w.end.CallFailed? then [ErrorDialog(ReadFailedTitle, w.end.msg)] else [])
           && progress == (if !w.end.CallFailed? && !last.stop then 100
                           else ClampPercent(ReadPercent(w.started, Total(|chunks|))))
           && reinits == reinits0 + (if last.restart then 1 else 0)
           && engineReady == (if last.restart then initOk else !w.end.CallFailed?)
           && !busy && currentJob == Idle && JobFlags() == StartFlags(false))
    }

    /** The worker of `read_now`: the chunk loop, then the ending and the cleanup. */
    method RunRead(chunks: seq<string>, steps: seq<Step>, trailing: seq<Op>, initOk: bool) returns (outcome: Outcome)
      requires Valid() && busy && currentJob == Reading && progress == 0 && engineReady
      requires JobFlags() == StartFlags(restartAfterStop)
      modifies this
      ensures Valid()
      ensures ReadEnded(chunks, steps, trailing, initOk, old(restartAfterStop), old(log), old(reinits), outcome)
      ensures cfg == old(cfg) && outDir == old(outDir)
    {
      var w := SpeakChunks(chunks, steps);
      if w.end == GateClosed {
        return Waiting(w);
      }
      Deliver(trailing);
      var message := ReadStatus(w.end, stopSet);
      if w.end.CallFailed? {
        engineReady := false;
        busy := false;
        log := log + [ErrorDialog(ReadFailedTitle, w.end.msg)];
      } else if stopSet {
        busy := false;
      } else {
        SetProgress(100);
        busy := false;
      }
      EndJobCleanup(initOk);
      outcome := Finished(w, message);
    }

    /**
     * `generate_mp3`. Refused while busy and for blank text; the output name is
     * then chosen from the first non-blank line of the stripped text, before the
     * text to speak is taken (whose emptiness is refused again). Past the guards
     * the worker runs on the chunks with the configuration snapshot.
     */
    method GenerateMp3(text: string, steps: seq<Step>, trailing: seq<Op>, ffmpegOk: bool,
                       run: ProcessResult, dir: string, initOk: bool)
      returns (outcome: Outcome, name: string)
      requires Valid()
      modifies this
      ensures Valid()
      ensures old(busy) ==> outcome == Ignored && unchanged(this)
      ensures !old(busy) && Strip(text) == [] ==> outcome == Refused(ErrorTitle, PasteTextMessage)
      ensures !old(busy) && Strip(text) != [] && TextToSpeak(text, old(cfg).excludeFirstLine) == [] ==>
        outcome == Refused(ErrorTitle, NothingToNarrateMessage)
      ensures outcome.Refused? ==>
        && log == old(log) + [ErrorDialog(outcome.title, outcome.message)]
        && JobFlags() == old(JobFlags()) && currentJob == old(currentJob) && !busy
        && engineReady == old(engineReady) && reinits == old(reinits) && progress == old(progress)
        && outDir == old(outDir)
      ensures !old(busy) && Strip(text) != [] ==>
        var lines := SplitLines(Strip(text));
        && (FileNames.AllBlank(lines) ==> FileNames.FirstFree(old(outDir), FileNames.SanitizeFilename(FileNames.FallbackName, FileNames.MaxNameLen), name))
        && forall k: nat :: FileNames.FirstNonBlank(lines, k) ==>
             FileNames.FirstFree(old(outDir), FileNames.SanitizeFilename(Strip(lines[k]), FileNames.MaxNameLen), name)
      ensures outcome.Waiting? || outcome.Finished? ==>
        var snap := TakeSnapshot(old(cfg));
        && !old(busy) && TextToSpeak(text, old(cfg).excludeFirstLine) != []
        && GenEnded(GenChunks(text, old(cfg)), steps, trailing, initOk, ffmpegOk, run, dir,
                    SpeechFor(snap, edgeInstalled), name, snap.backend,
                    old(restartAfterStop), old(log), old(reinits), old(engineReady), old(outDir), outcome)
      ensures cfg == old(cfg)
    {
      name := "";
      if busy {
        return Ignored, name;
      }
      var raw := Strip(text);
      if raw == [] {
        log := log + [ErrorDialog(ErrorTitle, PasteTextMessage)];
        return Refused(ErrorTitle, PasteTextMessage), name;
      }
      var firstLine := FileNames.PickFirstNonemptyLine(raw);
      name := FileNames.UniquePath(outDir, firstLine);
      if TextToSpeak(text, cfg.excludeFirstLine) == [] {
        log := log + [ErrorDialog(ErrorTitle, NothingToNarrateMessage)];
        return Refused(ErrorTitle, NothingToNarrateMessage), name;
      }
      outcome := StartGen(text, steps, trailing, ffmpegOk, run, dir, initOk, name);
    }

    /**
     * The part of `generate_mp3` past its guards: reset the flags, split, take
     * the snapshot of the applied configuration, start the worker.
     */
    method StartGen(text: string, steps: seq<Step>, trailing: seq<Op>, ffmpegOk: bool,
                    run: ProcessResult, dir: string, initOk: bool, name: string)
      returns (outcome: Outcome)
      requires Valid() && !busy
      requires TextToSpeak(text, cfg.excludeFirstLine) != []
      modifies this
      ensures Valid()
      ensures var snap := TakeSnapshot(old(cfg));
        GenEnded(GenChunks(text, old(cfg)), steps, trailing, initOk, ffmpegOk, run, dir,
                 SpeechFor(snap, edgeInstalled), name, snap.backend,
                 old(restartAfterStop), old(log), old(reinits), old(engineReady), old(outDir), outcome)
      ensures cfg == old(cfg)
    {
      var chunks, snap := BeginGen(text);
      outcome := RunGen(chunks, steps, trailing, initOk, ffmpegOk, run, dir,
                        SpeechFor(snap, edgeInstalled), name, snap.backend);
    }

    /** The set-up before the worker starts: flags reset, busy, progress 0, the chunks cut and the settings copied. */
    method BeginGen(text: string) returns (chunks: seq<string>, snap: Snapshot)
      requires Valid() && !busy
      modifies this
      ensures Valid() && busy && currentJob == Generating && progress == 0
      ensures JobFlags() == StartFlags(restartAfterStop) && restartAfterStop == old(restartAfterStop)
      ensures chunks == GenChunks(text, cfg) && snap == TakeSnapshot(cfg)
      ensures cfg == old(cfg) && log == old(log) && reinits == old(reinits)
      ensures engineReady == old(engineReady) && outDir == old(outDir)
    {
      ResetJobFlags();
      currentJob := Generating;
      SetProgress(0);
      chunks := Segmenter.SmartSplitText(TextToSpeak(text, cfg.excludeFirstLine), cfg.chunkMaxChars);
      snap := TakeSnapshot(cfg);
      busy := true;
    }

    /**
     * Where a generation job over `chunks` stands once its worker returns or
     * blocks. The parts were synthesized in order with the snapshot's voice, one
     * file per chunk the walk started. A blocked worker keeps the job busy.
     * Otherwise the job failed (stop seen, synthesis or concatenation error), and
     * an error dialog is shown unless the message is a cancellation; or it
     * succeeded: the MP3 is written under `name` from the finished parts, the
     * progress reaches 100, the engine is rebuilt and the done dialog shown. In
     * both cases the cleanup left the application idle.
     */
    predicate GenEnded(chunks: seq<string>, steps: seq<Step>, trailing: seq<Op>, initOk: bool,
                       ffmpegOk: bool, run: ProcessResult, dir: string, speech: Speech,
                       name: string, backend: string, restart0: bool, log0: seq<Event>,
                       reinits0: nat, ready0: bool, outDir0: set<string>, outcome: Outcome)
      reads this
    {
      && (outcome.Waiting? || outcome.Finished?)
      && var w := outcome.w;
      && w == Walk(StartFlags(restart0), |chunks|, steps, 0)
      && w.started <= |chunks|
      && (outcome.Waiting? ==>
           && w.end == GateClosed && busy && currentJob == Generating && JobFlags() == w.flags
           && log == log0 + SynthLog(chunks[..w.started], dir, speech)
           && progress == ClampPercent(GenPercent(w.started, Total(|chunks|)))
           && engineReady == ready0 && reinits == reinits0 && outDir == outDir0)
      && (outcome.Finished? ==>
           var failure := GenFailure(w.end, ffmpegOk, PartsDone(w), run);
           var last := AfterOps(w.flags, trailing);
           var rebuilt := engineInstalled && (failure.None? || last.restart);
           && w.end != GateClosed
           && outcome.message == GenStatus(failure, name)
           && log == log0 + SynthLog(chunks[..w.started], dir, speech)
                + GenTail(failure, name, WrittenFor(ffmpegOk, dir, steps, PartsDone(w)),
                          DoneText(name, backend, edgeInstalled, ffmpegOk))
           && outDir == (if failure.None? then outDir0 + {name} else outDir0)
           && progress == (if failure.None? then 100
                           else if w.end == AllDone then 95
                           else ClampPercent(GenPercent(w.started, Total(|chunks|))))
           && reinits == reinits0 + (if engineInstalled && failure.None? then 1 else 0)
                + (if engineInstalled && last.restart then 1 else 0)
           && engineReady == (if rebuilt then initOk else ready0)
           && !busy && currentJob == Idle && JobFlags() == StartFlags(false))
    }

    /** The worker of `generate_mp3`: the chunk loop, the concatenation, the ending and the cleanup. */
    method RunGen(chunks: seq<string>, steps: seq<Step>, trailing: seq<Op>, initOk: bool,
                  ffmpegOk: bool, run: ProcessResult, dir: string, speech: Speech,
                  name: string, backend: string)
      returns (outcome: Outcome)
      requires Valid() && busy && currentJob == Generating && progress == 0
      requires JobFlags() == StartFlags(restartAfterStop)
      modifies this
      ensures Valid()
      ensures GenEnded(chunks, steps, trailing, initOk, ffmpegOk, run, dir, speech, name, backend,
                       old(restartAfterStop), old(log), old(reinits), old(engineReady), old(outDir), outcome)
      ensures cfg == old(cfg)
    {
      var w, parts, audio := SynthChunks(chunks, steps, dir, speech);
      if w.end == GateClosed {
        return Waiting(w);
      }
      Deliver(trailing);
      var failure := ConcatParts(w, steps, dir, parts, audio, ffmpegOk, run, name);
      FinishGen(failure, name, DoneText(name, backend, edgeInstalled, ffmpegOk), initOk);
      outcome := Finished(w, GenStatus(failure, name));
    }

    /**
     * The end of `generate_mp3`'s worker: the busy lock is released; on success
     * the file joins the folder, the progress shows 100, the engine is rebuilt
     * and the done dialog shown; then the cleanup runs.
     */
    method FinishGen(failure: Option<string>, name: string, extra: string, initOk: bool)
      requires Valid() && busy
      modifies this
      ensures Valid()
      ensures !busy && currentJob == Idle && JobFlags() == StartFlags(false)
      ensures log == old(log) + EndDialogs(failure, extra)
      ensures outDir == if failure.None? then old(outDir) + {name} else old(outDir)
      ensures progress == if failure.None? then 100 else old(progress)
      ensures reinits == old(reinits) + (if engineInstalled && failure.None? then 1 else 0)
        + (if engineInstalled && old(restartAfterStop) then 1 else 0)
      ensures engineReady == if engineInstalled && (failure.None? || old(restartAfterStop)) then initOk else old(engineReady)
      ensures cfg == old(cfg)
    {
      busy := false;
      if failure.None? {
        outDir := outDir + {name};
        SetProgress(100);
        ReinitEngine(initOk);
        log := log + [DoneDialog(extra)];
      } else if ShowsErrorDialog(failure.value) {
        log := log + [ErrorDialog(GenFailedTitle, failure.value)];
      }
      EndJobCleanup(initOk);
    }

    /**
     * After the loop: a stop or a failed synthesis is the job's exception;
     * otherwise the progress shows 95 and the parts are joined, by FFmpeg when
     * it was found and byte by byte when not.
     */
    method ConcatParts(w: Walked, steps: seq<Step>, dir: string, parts: seq<string>, audio: seq<seq<Byte>>,
                       ffmpegOk: bool, run: ProcessResult, name: string)
      returns (failure: Option<string>)
      requires Valid() && busy && w.end != GateClosed
      requires parts == PartPaths(dir, PartsDone(w)) && audio == PartAudios(steps, PartsDone(w))
      modifies this
      ensures Valid() && busy
      ensures failure == GenFailure(w.end, ffmpegOk, PartsDone(w), run)
      ensures log == old(log) + (if failure.None? then [Wrote(name, WrittenFor(ffmpegOk, dir, steps, PartsDone(w)))] else [])
      ensures progress == if w.end == AllDone then 95 else old(progress)
      ensures JobFlags() == old(JobFlags()) && currentJob == old(currentJob) && cfg == old(cfg)
      ensures engineReady == old(engineReady) && reinits == old(reinits) && outDir == old(outDir)
    {
      if w.end == StopSeen {
        failure := Some(CancelMessage);
      } else if w.end.CallFailed? {
        failure := Some(w.end.msg);
      } else {
        SetProgress(95);
        if ffmpegOk {
          var r := ConcatFfmpeg(parts, run);
          if r.Failure? {
            failure := Some(r.error);
          } else {
            failure := None;
            log := log + [Wrote(name, ViaFfmpeg(r.value))];
          }
        } else {
          var bytes := ConcatNaive(audio);
          failure := None;
          log := log + [Wrote(name, Naive(bytes))];
        }
      }
    }

    /**
     * The loop of `generate_mp3`'s worker. The result is the walk
     * `JobPolicy.Walk` describes; every chunk it started was sent to synthesis,
     * in order, into its own part file, and the parts list holds the files of
     * the chunks that finished.
     */
    method SynthChunks(chunks: seq<string>, steps: seq<Step>, dir: string, speech: Speech)
      returns (w: Walked, parts: seq<string>, audio: seq<seq<Byte>>)
      requires Valid() && busy && progress == 0
      modifies this
      ensures Valid()
      ensures w == Walk(old(JobFlags()), |chunks|, steps, 0)
      ensures JobFlags() == w.flags
      ensures log == old(log) + SynthLog(chunks[..w.started], dir, speech)
      ensures parts == PartPaths(dir, PartsDone(w)) && audio == PartAudios(steps, PartsDone(w))
      ensures progress == ClampPercent(GenPercent(w.started, Total(|chunks|)))
      ensures busy && currentJob == old(currentJob) && cfg == old(cfg)
      ensures engineReady == old(engineReady) && reinits == old(reinits) && outDir == old(outDir)
    {
      parts, audio := [], [];
      var k := 0;
      assert GenPercent(0, Total(|chunks|)) == 0;
      while k < |chunks|
        invariant 0 <= k <= |chunks|
        invariant Valid() && busy
        invariant Walk(JobFlags(), |chunks|, steps, k) == Walk(old(JobFlags()), |chunks|, steps, 0)
        invariant log == old(log) + SynthLog(chunks[..k], dir, speech)
        invariant parts == PartPaths(dir, k) && audio == PartAudios(steps, k)
        invariant progress == ClampPercent(GenPercent(k, Total(|chunks|)))
        invariant currentJob == old(currentJob) && cfg == old(cfg)
        invariant engineReady == old(engineReady) && reinits == old(reinits) && outDir == old(outDir)
        decreases |chunks| - k
      {
        SynthLogStep(old(log), chunks, dir, speech, k);
        var end := SynthOne(chunks, steps, k, dir, speech);
        if end.Some? {
          return Walked(end.value, JobFlags(), if end.value.CallFailed? then k + 1 else k), parts, audio;
        }
        PartsStep(dir, steps, k);
        parts := parts + [PartPath(dir, k + 1)];
        audio := audio + [CallAudio(StepAt(steps, k).call)];
        k := k + 1;
      }
      assert chunks[..k] == chunks;
      w := Walked(AllDone, JobFlags(), k);
    }

    /**
     * One round of that loop: stop is checked, the worker waits on the pause
     * gate and checks stop again (a stop raises the cancellation); then the
     * progress is set to `int(idx / total * 95)` and chunk `k` is synthesized
     * into `part_{idx:04d}.mp3`. `None` means the loop goes on.
     */
    method SynthOne(chunks: seq<string>, steps: seq<Step>, k: nat, dir: string, speech: Speech)
      returns (end: Option<WalkEnd>)
      requires Valid() && busy && k < |chunks|
      modifies this
      ensures Valid() && busy
      ensures end.None? ==>
        && Walk(JobFlags(), |chunks|, steps, k + 1) == Walk(old(JobFlags()), |chunks|, steps, k)
        && log == old(log) + [Synthesize(PartPath(dir, k + 1), chunks[k], speech)]
        && progress == ClampPercent(GenPercent(k + 1, Total(|chunks|)))
      ensures end.Some? ==>
        var sent := end.value.CallFailed?;
        && Walk(old(JobFlags()), |chunks|, steps, k) == Walked(end.value, JobFlags(), if sent then k + 1 else k)
        && log == old(log) + (if sent then [Synthesize(PartPath(dir, k + 1), chunks[k], speech)] else [])
        && progress == (if sent then ClampPercent(GenPercent(k + 1, Total(|chunks|))) else old(progress))
      ensures currentJob == old(currentJob) && cfg == old(cfg)
      ensures engineReady == old(engineReady) && reinits == old(reinits) && outDir == old(outDir)
    {
      var st := StepAt(steps, k);
      Deliver(st.beforeCheck);
      if stopSet {
        return Some(StopSeen);
      }
      Deliver(st.beforeWait);
      if !gateOpen {
        return Some(GateClosed);
      }
      if stopSet {
        return Some(StopSeen);
      }
      SetProgress(GenPercent(k + 1, Total(|chunks|)));
      log := log + [Synthesize(PartPath(dir, k + 1), chunks[k], speech)];
      if st.call.Raised? {
        return Some(CallFailed(st.call.msg));
      }
      end := None;
    }
  }

  lemma SpokenLogStep(log0: seq<Event>, chunks: seq<string>, k: nat)
    requires k < |chunks|
    ensures log0 + SpokenLog(chunks[..k + 1]) == log0 + SpokenLog(chunks[..k]) + [Spoke(chunks[k])]
  {
    assert SpokenLog(chunks[..k + 1]) == SpokenLog(chunks[..k]) + [Spoke(chunks[k])];
  }

  lemma SynthLogStep(log0: seq<Event>, chunks: seq<string>, dir: string, speech: Speech, k: nat)
    requires k < |chunks|
    ensures log0 + SynthLog(chunks[..k + 1], dir, speech)
      == log0 + SynthLog(chunks[..k], dir, speech) + [Synthesize(PartPath(dir, k + 1), chunks[k], speech)]
  {
    assert SynthLog(chunks[..k + 1], dir, speech)
      == SynthLog(chunks[..k], dir, speech) + [Synthesize(PartPath(dir, k + 1), chunks[k], speech)];
  }

  lemma PartsStep(dir: string, steps: seq<Step>, k: nat)
    ensures PartPaths(dir, k + 1) == PartPaths(dir, k) + [PartPath(dir, k + 1)]
    ensures PartAudios(steps, k + 1) == PartAudios(steps, k) + [CallAudio(StepAt(steps, k).call)]
  {
  }

  /** Only zeros in front of a number do not change its value. */
  lemma {:induction false} ParseDecLeadingZeros(z: string, s: string)
    requires forall k :: 0 <= k < |z| ==> z[k] == '0'
    ensures ParseDec(z + s) == ParseDec(s)
    decreases |z| + |s|
  {
    if s == [] {
      assert z + s == z;
      if z != [] {
        ParseDecLeadingZeros(z[..|z| - 1], []);
        assert z[..|z| - 1] + [] == z[..|z| - 1];
      }
    } else {
      var t := z + s;
      assert t[..|t| - 1] == z + s[..|s| - 1];
      ParseDecLeadingZeros(z, s[..|s| - 1]);
    }
  }

  /** The four-digit part number reads back as the index it was made from. */
  lemma PaddedIndex(idx: nat)
    ensures ParseDec(ZeroPad(Dec(idx), 4)) == idx
  {
    var s := Dec(idx);
    var r := ZeroPad(s, 4);
    assert r == r[..|r| - |s|] + s;
    ParseDecLeadingZeros(r[..|r| - |s|], s);
    ParseDecOfDec(idx);
  }

  /** Different chunks never share a part file: the part path determines the index. */
  lemma PartPathInjective(dir: string, i: nat, j: nat)
    requires PartPath(dir, i) == PartPath(dir, j)
    ensures i == j
  {
    var pi := ZeroPad(Dec(i), 4);
    var pj := ZeroPad(Dec(j), 4);
    var x := PartPath(dir, i);
    var y := PartPath(dir, j);
    assert x == (dir + "/part_") + pi + ".mp3";
    assert y == (dir + "/part_") + pj + ".mp3";
    assert |pi| == |pj|;
    assert x[|dir| + 6..|dir| + 6 + |pi|] == pi;
    assert y[|dir| + 6..|dir| + 6 + |pj|] == pj;
    PaddedIndex(i);
    PaddedIndex(j);
  }

  /** A part path has a line break only if the temporary folder's path has one. */
  lemma PartPathNoNewline(dir: string, idx: nat)
    requires '\n' !in dir
    ensures '\n' !in PartPath(dir, idx)
  {
    var s := Dec(idx);
    var p := ZeroPad(s, 4);
    forall k | 0 <= k < |p|
      ensures p[k] != '\n'
    {
      if k >= |p| - |s| {
        assert p[k] == p[|p| - |s|..][k - (|p| - |s|)];
      }
    }
    var mid := "/part_";
    var tail := ".mp3";
    assert mid[0] != '\n' && mid[1] != '\n' && mid[2] != '\n' && mid[3] != '\n' && mid[4] != '\n' && mid[5] != '\n';
    assert tail[0] != '\n' && tail[1] != '\n' && tail[2] != '\n' && tail[3] != '\n';
    assert PartPath(dir, idx) == dir + mid + p + tail;
  }

  /**
   * The list file handed to FFmpeg names the part files one per line, in chunk
   * order, each reading back as its own path.
   */
  lemma PartsManifest(dir: string, n: nat)
    requires '\n' !in dir
    ensures var lines := SplitLines(JoinLines(ManifestLines(PartPaths(dir, n))));
      |lines| == n && forall k :: 0 <= k < n ==> ParseLine(lines[k]) == Some(PartPath(dir, k + 1))
  {
    var parts := PartPaths(dir, n);
    forall k | 0 <= k < n
      ensures '\n' !in parts[k]
    {
      PartPathNoNewline(dir, k + 1);
    }
    ManifestRoundTrip(parts);
  }

  /** Once stop is set, no press of pause or stop clears it. */
  lemma {:induction false} StopStays(f: Flags, ops: seq<Op>)
    requires f.stop
    ensures AfterOps(f, ops).stop
    decreases |ops|
  {
    if ops != [] {
      StopStays(AfterOp(f, ops[0]), ops[1..]);
    }
  }

  /**
   * A read job reports "Leitura concluída." only when every chunk was spoken,
   * no stop was seen between chunks and none was pressed after the last one.
   */
  lemma ReadDoneMeansAllSpoken(f: Flags, n: nat, steps: seq<Step>, trailing: seq<Op>)
    requires var w := Walk(f, n, steps, 0);
      w.end != GateClosed && ReadStatus(w.end, AfterOps(w.flags, trailing).stop) == ReadDoneStatus
    ensures var w := Walk(f, n, steps, 0);
      w.end == AllDone && w.started == n && !AfterOps(w.flags, trailing).stop
  {
    var w := Walk(f, n, steps, 0);
    if w.end.CallFailed? {
      FailedIsNotDone(w.end.msg);
    }
    assert ReadCancelledStatus[9] != ReadDoneStatus[9];
    if w.end == StopSeen {
      StopStays(w.flags, trailing);
    }
  }

  lemma FailedIsNotDone(msg: string)
    ensures ReadFailedPrefix + msg != ReadDoneStatus
  {
    assert (ReadFailedPrefix + msg)[0] != ReadDoneStatus[0];
  }

  /**
   * A generation stopped by the user ends with the cancellation message in the
   * status line and no error dialog.
   */
  lemma GenCancelIsSilent(ffmpegOk: bool, parts: nat, run: ProcessResult, name: string, extra: string)
    ensures var failure := GenFailure(StopSeen, ffmpegOk, parts, run);
      GenStatus(failure, name) == GenFailedPrefix + CancelMessage && EndDialogs(failure, extra) == []
  {
    CancelIsSilent();
  }

  /**
   * `generate_mp3`'s second guard ("Nada para narrar.") never fires: once the
   * stripped text is non-blank, so is the text to speak, with or without
   * `exclude_first_line`.
   */
  lemma NothingToNarrateUnreachable(text: string, excludeFirstLine: bool)
    requires Strip(text) != []
    ensures TextToSpeak(text, excludeFirstLine) != []
    ensures excludeFirstLine ==> |TextToSpeak(text, excludeFirstLine)| <= |Strip(text)|
  {
    TextToSpeakSpec(text, excludeFirstLine);
    var raw := Strip(text);
    var p := Find(raw, '\n');
    if excludeFirstLine && p >= 0 && !AllSpace(raw[p + 1..]) {
      assert |Strip(raw[p + 1..])| <= |raw[p + 1..]|;
    }
  }
}
