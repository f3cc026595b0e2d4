/**
 * `StatusUi` of src/main.py: user feedback for the three coordinator
 * states through an optional LED control FIFO, an optional trigger sound
 * and the log.
 */
module StatusUi {
  import opened Wrappers

  /** The user-facing phase of the voice recognizer. */
  datatype Status = Ready | Listening | Thinking

  function Name(s: Status): string {
    match s
    case Ready => "ready"
    case Listening => "listening"
    case Thinking => "thinking"
  }

  /** The configured feedback channels that were found at start-up. */
  datatype Ui = Ui(ledFifo: Option<string>, triggerSound: Option<string>)

  /** Side effects of the status reporter, in the order it performs them. */
  datatype UiEffect =
    | WriteFifo(path: string, text: string)
    | LogInfo(text: string)
    | LogWarning(text: string)
    | PlayWav(path: string)

  /** Python truthiness of an optional path: present and non-empty. */
  predicate Given(p: Option<string>) {
    p.Some? && p.value != []
  }

  /**
   * `StatusUi.__init__`: a channel is kept only if it was given and its
   * file exists; a given but missing file costs one warning.  The
   * existence checks are inputs, and `~` expansion of the sound path is
   * the identity here.
   */
  function Init(ledFifo: Option<string>, fifoExists: bool, triggerSound: Option<string>, soundExists: bool)
    : (r: (Ui, seq<UiEffect>))
    ensures r.0.ledFifo.Some? <==> Given(ledFifo) && fifoExists
    ensures r.0.ledFifo.Some? ==> r.0.ledFifo == ledFifo
    ensures r.0.triggerSound.Some? <==> Given(triggerSound) && soundExists
    ensures r.0.triggerSound.Some? ==> r.0.triggerSound == triggerSound
    ensures |r.1| == (if Given(ledFifo) && !fifoExists then 1 else 0)
                   + (if Given(triggerSound) && !soundExists then 1 else 0)
    ensures forall e :: e in r.1 ==> e.LogWarning?
    // the FIFO is checked before the sound, and each warning names its own file
    ensures Given(ledFifo) && !fifoExists ==>
      r.1[0] == LogWarning("File " + ledFifo.value + " specified for --led-fifo does not exist.")
    ensures Given(triggerSound) && !soundExists ==>
      r.1[|r.1| - 1] == LogWarning("File " + triggerSound.value + " specified for --trigger-sound does not exist.")
  {
    var (fifo, w1) :=
      if Given(ledFifo) && fifoExists then (ledFifo, [])
      else if Given(ledFifo) then (None, [LogWarning("File " + ledFifo.value + " specified for --led-fifo does not exist.")])
      else (None, []);
    var (sound, w2) :=
      if Given(triggerSound) && soundExists then (triggerSound, [])
      else if Given(triggerSound) then (None, [LogWarning("File " + triggerSound.value + " specified for --trigger-sound does not exist.")])
      else (None, []);
    (Ui(fifo, sound), w1 + w2)
  }

  predicate WritesFifo(effects: seq<UiEffect>) {
    exists e :: e in effects && e.WriteFifo?
  }

  predicate PlaysSound(effects: seq<UiEffect>) {
    exists e :: e in effects && e.PlayWav?
  }

  /** `StatusUi.status`: write the FIFO, log, then play the trigger sound when listening. */
  function Report(ui: Ui, status: Status): (effects: seq<UiEffect>)
    ensures LogInfo(Name(status) + "...") in effects
    ensures forall e :: e in effects && e.WriteFifo? ==>
      ui.ledFifo == Some(e.path) && e.text == Name(status) + "\n"
    ensures ui.ledFifo.Some? ==> effects[0] == WriteFifo(ui.ledFifo.value, Name(status) + "\n")
    ensures PlaysSound(effects) <==> status == Listening && ui.triggerSound.Some?
    ensures forall e :: e in effects && e.PlayWav? ==> ui.triggerSound == Some(e.path)
    ensures forall e :: e in effects ==> !e.LogWarning?
    // each channel is used once, in the order FIFO, log, sound
    ensures |effects| == (if ui.ledFifo.Some? then 1 else 0) + 1
                         + (if status == Listening && ui.triggerSound.Some? then 1 else 0)
    ensures effects[if ui.ledFifo.Some? then 1 else 0] == LogInfo(Name(status) + "...")
    ensures status == Listening && ui.triggerSound.Some? ==>
      effects[|effects| - 1] == PlayWav(ui.triggerSound.value)
  {
    var write := if ui.ledFifo.Some? then [WriteFifo(ui.ledFifo.value, Name(status) + "\n")] else [];
    var sound := if status == Listening && ui.triggerSound.Some? then [PlayWav(ui.triggerSound.value)] else [];
    var effects := write + [LogInfo(Name(status) + "...")] + sound;
    assert sound != [] ==> sound[0] in effects;
    effects
  }

  /**
   * The FIFO receives the status line exactly when a FIFO path was given
   * and existed at start-up; otherwise the reporter degrades to the log.
   */
  lemma FifoWrittenIffConfigured(ledFifo: Option<string>, fifoExists: bool, triggerSound: Option<string>,
                                 soundExists: bool, status: Status)
    ensures var effects := Report(Init(ledFifo, fifoExists, triggerSound, soundExists).0, status);
      && (WritesFifo(effects) <==> Given(ledFifo) && fifoExists)
      && (WritesFifo(effects) ==> effects[0] == WriteFifo(ledFifo.value, Name(status) + "\n"))
      && (PlaysSound(effects) <==> status == Listening && Given(triggerSound) && soundExists)
  {
    var ui := Init(ledFifo, fifoExists, triggerSound, soundExists).0;
    var effects := Report(ui, status);
    if ui.ledFifo.Some? {
      assert effects[0] in effects;
    }
  }
}
