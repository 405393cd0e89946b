/** The typewriter effect of the hero banner. Its state is three component state
    variables: which role string is current, the part of it shown so far, and
    whether it is being erased. Each run of the effect either arms one timer whose
    callback makes one change, or (when a string has been fully erased) moves to the
    next string at once. */
module Typewriter {

  datatype Option<T> = None | Some(value: T)

  /** The role strings the banner cycles through. */
  const Roles: seq<string> :=
    ["Full Stack Developer", "Gen AI", "Open Source Contributor", "Problem Solver", "AI/ML"]

  /** Delay before each character is typed, and before each one is erased. */
  const TypeDelay: nat := 100
  const DeleteDelay: nat := 50
  /** Delay between a string being complete and its erasing starting. */
  const PauseDelay: nat := 2000

  datatype State = State(textIndex: nat, displayText: string, isDeleting: bool)

  /** What one run of the effect does: arm a timer of `delay` milliseconds whose
      callback produces `next`, change the state straight away, or nothing. */
  datatype Effect =
    | Timer(delay: nat, next: State)
    | Immediate(next: State)
    | NoEffect

  /** The state the page starts in. */
  const Init: State := State(0, "", false)

  /** `s` is `t` cut at `end`, where an end past the string's length stops at the
      string's end, as a script string slice from position 0 does. */
  function Slice(t: string, end: int): (r: string)
    requires end >= 0
    ensures |r| <= |t|
    ensures |r| == if end <= |t| then end else |t|
    ensures r <= t
  {
    if end <= |t| then t[..end] else t
  }

  /** The invariant every reachable state keeps: the index names a string of the
      list, and the text shown is a prefix of that string. */
  ghost predicate Inv(texts: seq<string>, s: State)
  {
    s.textIndex < |texts| && s.displayText <= texts[s.textIndex]
  }

  /** One run of the effect in state `s`. */
  function RunEffect(texts: seq<string>, s: State): (e: Effect)
    requires s.textIndex < |texts|
    ensures e.Timer? || e.Immediate? ==> e.next.textIndex < |texts|
    ensures e.NoEffect? <==> !s.isDeleting && |s.displayText| > |texts[s.textIndex]|
    ensures e.Immediate? ==> s.isDeleting && |s.displayText| == 0 && !e.next.isDeleting
  {
    var typingSpeed := if s.isDeleting then DeleteDelay else TypeDelay;
    var currentText := texts[s.textIndex];
    var n := |s.displayText|;
    if !s.isDeleting && n < |currentText| then
      Timer(typingSpeed, s.(displayText := Slice(currentText, n + 1)))
    else if !s.isDeleting && n == |currentText| then
      Timer(PauseDelay, s.(isDeleting := true))
    else if s.isDeleting && n > 0 then
      Timer(typingSpeed, s.(displayText := Slice(currentText, n - 1)))
    else if s.isDeleting && n == 0 then
      Immediate(State((s.textIndex + 1) % |texts|, s.displayText, false))
    else
      NoEffect
  }

  /** The state once the effect's change has been made. */
  function Next(texts: seq<string>, s: State): State
    requires s.textIndex < |texts|
  {
    match RunEffect(texts, s)
    case Timer(_, next) => next
    case Immediate(next) => next
    case NoEffect => s
  }

  /** The time a run of the effect waits before its change is made. */
  function Delay(e: Effect): nat
  {
    if e.Timer? then e.delay else 0
  }

  /** The state after `k` runs of the effect from `s`. */
  function Run(texts: seq<string>, s: State, k: nat): (r: State)
    requires s.textIndex < |texts|
    ensures r.textIndex < |texts|
    ensures Inv(texts, s) ==> Inv(texts, r)
    decreases k
  {
    if k == 0 then s
    else
      var prev := Run(texts, s, k - 1);
      StepPreservesInv(texts, prev);
      Next(texts, prev)
  }

  /** The time that passes during those `k` runs. */
  function Elapsed(texts: seq<string>, s: State, k: nat): nat
    requires s.textIndex < |texts|
    decreases k
  {
    if k == 0 then 0
    else Elapsed(texts, s, k - 1) + Delay(RunEffect(texts, Run(texts, s, k - 1)))
  }

  // ---------------------------------------------------------------------------
  // The four transitions

  /** Typing: the next character of the target is appended, after 100 ms. */
  lemma TypeStep(texts: seq<string>, s: State)
    requires Inv(texts, s) && !s.isDeleting
    requires |s.displayText| < |texts[s.textIndex]|
    ensures RunEffect(texts, s)
         == Timer(TypeDelay, s.(displayText := s.displayText + [texts[s.textIndex][|s.displayText|]]))
  {
  }

  /** Pausing: a fully typed string starts being erased, after 2000 ms. */
  lemma PauseStep(texts: seq<string>, s: State)
    requires Inv(texts, s) && !s.isDeleting
    requires |s.displayText| == |texts[s.textIndex]|
    ensures s.displayText == texts[s.textIndex]
    ensures RunEffect(texts, s) == Timer(PauseDelay, s.(isDeleting := true))
  {
  }

  /** Erasing: the last character shown is removed, after 50 ms. */
  lemma DeleteStep(texts: seq<string>, s: State)
    requires Inv(texts, s) && s.isDeleting && |s.displayText| > 0
    ensures RunEffect(texts, s)
         == Timer(DeleteDelay, s.(displayText := s.displayText[..|s.displayText| - 1]))
  {
  }

  /** Advancing: once erased, the next string (wrapping round) is started at once,
      with no timer. */
  lemma AdvanceStep(texts: seq<string>, s: State)
    requires Inv(texts, s) && s.isDeleting && |s.displayText| == 0
    ensures RunEffect(texts, s) == Immediate(State((s.textIndex + 1) % |texts|, "", false))
  {
  }

  /** From a state that keeps the invariant, the effect always does something, and
      the new state keeps the invariant too. */
  lemma StepPreservesInv(texts: seq<string>, s: State)
    requires s.textIndex < |texts|
    ensures Inv(texts, s) ==> !RunEffect(texts, s).NoEffect? && Inv(texts, Next(texts, s))
  {
  }

  /** The text shown never grows past the current target. */
  lemma DisplayNeverExceedsTarget(texts: seq<string>, k: nat)
    requires |texts| > 0
    ensures |Run(texts, Init, k).displayText| <= |texts[Run(texts, Init, k).textIndex]|
  {
  }

  // ---------------------------------------------------------------------------
  // Composing runs

  /** Running `a` steps and then `b` steps is running `a + b` steps, and the
      waiting times add up. */
  lemma {:induction false} RunAdd(texts: seq<string>, s: State, a: nat, b: nat)
    requires s.textIndex < |texts|
    ensures Run(texts, s, a + b) == Run(texts, Run(texts, s, a), b)
    ensures Elapsed(texts, s, a + b) == Elapsed(texts, s, a) + Elapsed(texts, Run(texts, s, a), b)
    decreases b
  {
    if b > 0 {
      RunAdd(texts, s, a, b - 1);
      assert a + b - 1 == a + (b - 1);
    }
  }

  /** Typing a string from nothing: after `k` steps the first `k` characters show,
      and `k` times 100 ms have passed. */
  lemma {:induction false} TypingPhase(texts: seq<string>, i: nat, k: nat)
    requires i < |texts| && k <= |texts[i]|
    ensures Run(texts, State(i, "", false), k) == State(i, texts[i][..k], false)
    ensures Elapsed(texts, State(i, "", false), k) == k * TypeDelay
  {
    if k > 0 {
      TypingPhase(texts, i, k - 1);
      var t := texts[i];
      assert |t[..k - 1]| == k - 1;
      assert Slice(t, k) == t[..k];
    }
  }

  /** Erasing a string: after `k` steps its first `|t| - k` characters show, and
      `k` times 50 ms have passed. */
  lemma {:induction false} DeletingPhase(texts: seq<string>, i: nat, k: nat)
    requires i < |texts| && k <= |texts[i]|
    ensures Run(texts, State(i, texts[i], true), k) == State(i, texts[i][..|texts[i]| - k], true)
    ensures Elapsed(texts, State(i, texts[i], true), k) == k * DeleteDelay
  {
    var t := texts[i];
    if k == 0 {
      assert t[..|t|] == t;
    } else {
      DeletingPhase(texts, i, k - 1);
      assert |t[..|t| - (k - 1)]| == |t| - k + 1;
      assert Slice(t, |t| - k) == t[..|t| - k];
    }
  }

  /** The number of runs of the effect spent on string `t`: type each character,
      pause, erase each character, advance. */
  function CycleSteps(t: string): nat
  {
    2 * |t| + 2
  }

  /** A single run of the effect. */
  lemma RunOne(texts: seq<string>, s: State)
    requires s.textIndex < |texts|
    ensures Run(texts, s, 1) == Next(texts, s)
    ensures Elapsed(texts, s, 1) == Delay(RunEffect(texts, s))
  {
  }

  /** Typing a string and holding it: `|t| + 1` runs reach the erasing state with
      the whole string shown. */
  lemma TypeAndPause(texts: seq<string>, i: nat)
    requires i < |texts|
    ensures Run(texts, State(i, "", false), |texts[i]| + 1) == State(i, texts[i], true)
    ensures Elapsed(texts, State(i, "", false), |texts[i]| + 1) == TypeDelay * |texts[i]| + PauseDelay
  {
    var t := texts[i];
    TypingPhase(texts, i, |t|);
    assert t[..|t|] == t;
    RunOne(texts, State(i, t, false));
    RunAdd(texts, State(i, "", false), |t|, 1);
  }

  /** Erasing a string and leaving it: `|t| + 1` runs reach the next string. */
  lemma DeleteAndAdvance(texts: seq<string>, i: nat)
    requires i < |texts|
    ensures Run(texts, State(i, texts[i], true), |texts[i]| + 1) == State((i + 1) % |texts|, "", false)
    ensures Elapsed(texts, State(i, texts[i], true), |texts[i]| + 1) == DeleteDelay * |texts[i]|
  {
    var t := texts[i];
    DeletingPhase(texts, i, |t|);
    assert t[..|t| - |t|] == [];
    RunOne(texts, State(i, "", true));
    RunAdd(texts, State(i, t, true), |t|, 1);
  }

  /** The full cycle of one string: from its empty, typing state, after typing,
      pausing, erasing and advancing, the banner is empty and typing the next string,
      and 150 ms per character plus the 2000 ms pause have passed. */
  lemma FullCycle(texts: seq<string>, i: nat)
    requires i < |texts|
    ensures Run(texts, State(i, "", false), CycleSteps(texts[i]))
         == State((i + 1) % |texts|, "", false)
    ensures Elapsed(texts, State(i, "", false), CycleSteps(texts[i]))
         == (TypeDelay + DeleteDelay) * |texts[i]| + PauseDelay
  {
    var n := |texts[i]|;
    TypeAndPause(texts, i);
    DeleteAndAdvance(texts, i);
    RunAdd(texts, State(i, "", false), n + 1, n + 1);
    assert (n + 1) + (n + 1) == CycleSteps(texts[i]);
  }

  /** The runs spent on the first `j` strings of the list, one full cycle each. */
  function StepsBefore(texts: seq<string>, j: nat): nat
    requires j <= |texts|
  {
    if j == 0 then 0 else StepsBefore(texts, j - 1) + CycleSteps(texts[j - 1])
  }

  /** Once a run reaches the start of string `i`, one more cycle reaches the start
      of the string after it. */
  lemma CycleAfter(texts: seq<string>, s: State, k: nat, i: nat)
    requires s.textIndex < |texts| && i < |texts|
    requires Run(texts, s, k) == State(i, "", false)
    ensures Run(texts, s, k + CycleSteps(texts[i])) == State((i + 1) % |texts|, "", false)
  {
    RunAdd(texts, s, k, CycleSteps(texts[i]));
    FullCycle(texts, i);
  }

  /** The index after `i` in a list of `n` strings, wrapping round. */
  lemma NextIndex(i: nat, n: nat)
    requires i < n
    ensures (i + 1) % n == if i + 1 == n then 0 else i + 1
  {
  }

  /** After the cycles of the first `j` strings, the banner is empty and typing
      string `j`, or string 0 again once every string has had its cycle. */
  lemma {:induction false} CyclesFromStart(texts: seq<string>, j: nat)
    requires 0 < |texts| && j <= |texts|
    ensures Run(texts, Init, StepsBefore(texts, j))
         == State(if j == |texts| then 0 else j, "", false)
  {
    if j > 0 {
      CyclesFromStart(texts, j - 1);
      CycleAfter(texts, Init, StepsBefore(texts, j - 1), j - 1);
      NextIndex(j - 1, |texts|);
    }
  }

  /** The banner is periodic: after one cycle of every string it is back where it
      started. */
  lemma Period(texts: seq<string>)
    requires 0 < |texts|
    ensures Run(texts, Init, StepsBefore(texts, |texts|)) == Init
  {
    CyclesFromStart(texts, |texts|);
  }

  /** The page's own list comes back to the start after 146 runs of the effect. */
  lemma RolesPeriod()
    ensures Run(Roles, Init, 146) == Init
  {
    Period(Roles);
    assert |Roles[0]| == 20 && |Roles[1]| == 6 && |Roles[2]| == 23;
    assert |Roles[3]| == 14 && |Roles[4]| == 5;
    assert StepsBefore(Roles, 2) == 42 + 14;
    assert StepsBefore(Roles, 4) == 56 + 48 + 30;
    assert StepsBefore(Roles, 5) == 146;
  }

  /** The two-string example: after "A" has been typed (100 ms), held (2000 ms),
      erased (50 ms) and left, the banner is empty and on "Ab"; the next run types "A". */
  lemma TwoStringScenario()
    ensures Run(["A", "Ab"], Init, 4) == State(1, "", false)
    ensures Elapsed(["A", "Ab"], Init, 4) == 2150
    ensures Next(["A", "Ab"], State(1, "", false)) == State(1, "A", false)
  {
  }

  // ---------------------------------------------------------------------------
  // The component's state variables, updated in place

  /** The three state variables of the component, with the list they index. */
  class Banner {
    const texts: seq<string>
    var textIndex: nat
    var displayText: string
    var isDeleting: bool

    ghost predicate Valid()
      reads this
    {
      Inv(texts, Current())
    }

    function Current(): State
      reads this
    {
      State(textIndex, displayText, isDeleting)
    }

    /** The initial values of the state variables. */
    constructor (texts: seq<string>)
      requires |texts| > 0
      ensures Valid() && this.texts == texts && Current() == Init
    {
      this.texts := texts;
      textIndex, displayText, isDeleting := 0, "", false;
    }

    /** One run of the effect together with the timer it arms firing. Returns the
        timer's delay, or None when the change is made without a timer. */
    method Tick() returns (timer: Option<nat>)
      requires Valid()
      modifies this
      ensures Valid()
      ensures Current() == Next(texts, old(Current()))
      ensures timer == (if RunEffect(texts, old(Current())).Timer?
                        then Some(RunEffect(texts, old(Current())).delay) else None)
    {
      StepPreservesInv(texts, Current());
      var typingSpeed := if isDeleting then 50 else 100;
      var currentText := texts[textIndex];
      if !isDeleting && |displayText| < |currentText| {
        displayText := currentText[..|displayText| + 1];
        timer := Some(typingSpeed);
      } else if !isDeleting && |displayText| == |currentText| {
        isDeleting := true;
        timer := Some(2000);
      } else if isDeleting && |displayText| > 0 {
        displayText := currentText[..|displayText| - 1];
        timer := Some(typingSpeed);
      } else {
        isDeleting := false;
        textIndex := (textIndex + 1) % |texts|;
        timer := None;
      }
    }
  }
}
