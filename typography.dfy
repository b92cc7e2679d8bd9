/**
 * The `Typewriter` component: it reveals its `text` one UTF-16 code unit per
 * timer tick, waiting `delay` before the first and `speed` before each later
 * one, and shows a blinking cursor until the whole text is on screen.
 *
 * The component's two pieces of state, `displayText` and `currentIndex`,
 * are the fields of a class; each timer callback is a call of `Tick`.
 * `Step` is the pure reference for one tick, and `Run` for a whole run.
 */
module Typography {

  /** A JavaScript string is a sequence of UTF-16 code units: `length` counts
      them and `text[i]` reads one. */
  newtype CodeUnit = x: int | 0 <= x < 0x1_0000
  type JsString = seq<CodeUnit>

  /** Default wait in milliseconds before every character after the first. */
  const DefaultSpeed: nat := 100
  /** Default wait in milliseconds before the first character. */
  const DefaultDelay: nat := 0

  /** A snapshot of the component's state. */
  datatype Frame = Frame(displayText: JsString, currentIndex: nat)

  /** The state shows the first `currentIndex` code units of `text`. */
  predicate Shows(text: JsString, f: Frame) {
    f.currentIndex <= |text| && f.displayText == text[..f.currentIndex]
  }

  /** The state the component mounts with. */
  function Initial(): (f: Frame)
    ensures forall text: JsString :: Shows(text, f) && f.displayText == text[..0]
  {
    Frame([], 0)
  }

  /** One timer callback: while text remains, append the next code unit and
      advance the index; otherwise do nothing. */
  function Step(text: JsString, f: Frame): (g: Frame)
    ensures Shows(text, f) ==> Shows(text, g)
    ensures Shows(text, f) && f.currentIndex < |text| ==> g.currentIndex == f.currentIndex + 1 && f.displayText < g.displayText
    ensures f.currentIndex >= |text| ==> g == f
  {
    if f.currentIndex < |text| then
      Frame(f.displayText + [text[f.currentIndex]], f.currentIndex + 1)
    else f
  }

  /** The state after `n` ticks from mounting. */
  function Run(text: JsString, n: nat): Frame {
    if n == 0 then Initial() else Step(text, Run(text, n - 1))
  }

  function Min(a: nat, b: nat): nat {
    if a <= b then a else b
  }

  /** After `n` ticks the component shows the first `min(n, |text|)` code units. */
  lemma {:induction false} RunShowsPrefix(text: JsString, n: nat)
    ensures Run(text, n) == Frame(text[..Min(n, |text|)], Min(n, |text|))
  {
    if n > 0 {
      RunShowsPrefix(text, n - 1);
      var m := Min(n - 1, |text|);
      if m < |text| {
        assert text[..m] + [text[m]] == text[..m + 1];
      }
    }
  }

  /** The whole text is on screen exactly from the `|text|`-th tick on, and
      ticks after that change nothing. */
  lemma RunCompletes(text: JsString, n: nat)
    ensures Run(text, n).displayText == text <==> n >= |text|
    ensures n >= |text| ==> Run(text, n + 1) == Run(text, n)
  {
    RunShowsPrefix(text, n);
    RunShowsPrefix(text, n + 1);
    if n < |text| {
      assert |Run(text, n).displayText| == n;
    }
  }

  /** `currentIndex < text.length`: whether the cursor is rendered. */
  function ShowsCursor(text: JsString, f: Frame): (shown: bool)
    ensures Shows(text, f) ==> (shown <==> f.displayText != text)
  {
    f.currentIndex < |text|
  }

  /** The wait before the next callback: `delay` at index 0, `speed` otherwise. */
  function Wait(speed: nat, delay: nat, f: Frame): nat {
    if f.currentIndex == 0 then delay else speed
  }

  /** `delay` applies only before the first code unit: once a tick has shown
      something, every wait is `speed`; the first wait is always `delay`. */
  lemma DelayOnlyFirst(text: JsString, speed: nat, delay: nat, n: nat)
    ensures n == 0 ==> Wait(speed, delay, Run(text, n)) == delay
    ensures n >= 1 && text != [] ==> Wait(speed, delay, Run(text, n)) == speed
  {
    RunShowsPrefix(text, n);
  }

  /** The mounted component: the props it was given and its two state variables. */
  class Typewriter {
    const text: JsString
    const speed: nat
    const delay: nat
    var displayText: JsString
    var currentIndex: nat

    function State(): Frame
      reads this
    {
      Frame(displayText, currentIndex)
    }

    ghost predicate Valid()
      reads this
    {
      Shows(text, State())
    }

    /** Mounting with the given props: nothing shown yet. */
    constructor (text: JsString, speed: nat, delay: nat)
      ensures Valid()
      ensures this.text == text && this.speed == speed && this.delay == delay
      ensures State() == Initial()
    {
      this.text := text;
      this.speed := speed;
      this.delay := delay;
      displayText := [];
      currentIndex := 0;
    }

    /** Mounting with only `text`: `speed` and `delay` take their defaults. */
    constructor WithDefaults(text: JsString)
      ensures Valid()
      ensures this.text == text && speed == DefaultSpeed && delay == DefaultDelay
      ensures State() == Initial()
    {
      this.text := text;
      speed := DefaultSpeed;
      delay := DefaultDelay;
      displayText := [];
      currentIndex := 0;
    }

    /** The timer callback. */
    method Tick()
      requires Valid()
      modifies this
      ensures Valid()
      ensures State() == Step(text, old(State()))
    {
      if currentIndex < |text| {
        displayText := displayText + [text[currentIndex]];
        currentIndex := currentIndex + 1;
      }
    }

    /** Whether the cursor is rendered. */
    method Cursor() returns (shown: bool)
      requires Valid()
      ensures shown <==> displayText != text
    {
      shown := currentIndex < |text|;
    }

    /** The wait the effect schedules the next callback with. */
    method NextWait() returns (ms: nat)
      ensures ms == Wait(speed, delay, State())
    {
      ms := if currentIndex == 0 then delay else speed;
    }
  }

  /** Mounting "Hi" with the defaults: nothing shown and a 0 ms wait, then one
      code unit after each 100 ms tick, then the cursor goes away. */
  method TypeHi() returns (first: JsString, second: JsString, waits: seq<nat>, cursor: bool)
    ensures first == [72] && second == [72, 105]
    ensures waits == [0, 100, 100]
    ensures !cursor
  {
    var hi: JsString := [72, 105];
    var w := new Typewriter.WithDefaults(hi);
    var ms0 := w.NextWait();
    w.Tick();
    first := w.displayText;
    var ms1 := w.NextWait();
    w.Tick();
    second := w.displayText;
    var ms2 := w.NextWait();
    waits := [ms0, ms1, ms2];
    cursor := w.Cursor();
  }
}
