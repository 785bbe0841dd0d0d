/**
 * The change-event debouncer of the bezier field (`RaiseChangeEvent` and its
 * timer callback) as a state machine on values. The field's class keeps the
 * same three components in its own fields; this module says what each step
 * does and proves what a whole sequence of steps does.
 *
 * Time is not modelled: a `setTimeout` callback is "scheduled" until a later
 * `Elapse` step fires it.
 */
module ChangeNotifier {

  /** A `Blockly.Events.Change`: element kind, field name, old and new value. */
  datatype ChangeEvent = Change(element: string, name: string, oldValue: string, newValue: string)

  /**
   * `eventTimeout` is the field's flag; `scheduled` counts the timer
   * callbacks that have been set and not yet run; `fired` is what has been
   * handed to `Blockly.Events.fire`, oldest first.
   */
  datatype Notifier = Notifier(eventTimeout: bool, scheduled: nat, fired: seq<ChangeEvent>)

  /** The state of a newly constructed field: idle, nothing scheduled, nothing fired. */
  function Initial(): Notifier
  {
    Notifier(false, 0, [])
  }

  /** The flag is set exactly while one callback is scheduled; none is scheduled otherwise. */
  predicate Valid(n: Notifier)
  {
    n.scheduled == if n.eventTimeout then 1 else 0
  }

  /** `RaiseChangeEvent`: while idle, set the flag and schedule one callback; while pending, nothing. */
  function Raise(n: Notifier): Notifier
  {
    if n.eventTimeout then n
    else n.(eventTimeout := true, scheduled := n.scheduled + 1)
  }

  /** The timer callback: clear the flag and fire one change carrying the points read now. */
  function Fire(n: Notifier, name: string, pointsJson: string): Notifier
    requires n.scheduled > 0
  {
    n.(eventTimeout := false, scheduled := n.scheduled - 1, fired := n.fired + [Change("field", name, "", pointsJson)])
  }

  /** What can happen to the notifier: a curve mutation notifies it, or the delay elapses. */
  datatype Stimulus = Notify | Elapse(pointsJson: string)

  /** One stimulus. When the delay elapses with no callback scheduled, nothing runs. */
  function Step(n: Notifier, name: string, st: Stimulus): Notifier
  {
    match st
    case Notify => Raise(n)
    case Elapse(p) => if n.scheduled > 0 then Fire(n, name, p) else n
  }

  /** The stimuli applied left to right. */
  function Run(n: Notifier, name: string, trace: seq<Stimulus>): Notifier
    decreases |trace|
  {
    if trace == [] then n else Run(Step(n, name, trace[0]), name, trace[1..])
  }

  /** `k` notifications in a row. */
  function Notifies(k: nat): (t: seq<Stimulus>)
    ensures |t| == k && forall i :: 0 <= i < k ==> t[i] == Notify
  {
    if k == 0 then [] else [Notify] + Notifies(k - 1)
  }

  /** How many notifications a trace holds. */
  function CountNotify(trace: seq<Stimulus>): nat
    decreases |trace|
  {
    if trace == [] then 0 else (if trace[0] == Notify then 1 else 0) + CountNotify(trace[1..])
  }

  /** The initial state is valid: the flag starts false with nothing scheduled. */
  lemma InitialValid()
    ensures Valid(Initial()) && !Initial().eventTimeout && Initial().scheduled == 0
  {
  }

  /**
   * Notifying while idle sets the flag and schedules exactly one callback;
   * notifying while pending changes nothing. Either way the result is valid
   * and nothing is fired.
   */
  lemma RaiseSpec(n: Notifier)
    requires Valid(n)
    ensures Valid(Raise(n)) && Raise(n).eventTimeout && Raise(n).scheduled == 1
    ensures Raise(n).fired == n.fired
    ensures n.eventTimeout ==> Raise(n) == n
  {
  }

  /** A second notification before the callback runs is a no-op. */
  lemma RaiseIdempotent(n: Notifier)
    ensures Raise(Raise(n)) == Raise(n)
  {
  }

  /**
   * The callback clears the flag, leaves nothing scheduled and appends
   * exactly one change event, whose new value is the points at fire time.
   */
  lemma FireSpec(n: Notifier, name: string, pointsJson: string)
    requires Valid(n) && n.eventTimeout
    ensures Valid(Fire(n, name, pointsJson))
    ensures !Fire(n, name, pointsJson).eventTimeout && Fire(n, name, pointsJson).scheduled == 0
    ensures Fire(n, name, pointsJson).fired == n.fired + [Change("field", name, "", pointsJson)]
  {
  }

  /** Every step keeps the notifier valid. */
  lemma StepValid(n: Notifier, name: string, st: Stimulus)
    requires Valid(n)
    ensures Valid(Step(n, name, st))
  {
  }

  /** Running a concatenation is running one part after the other. */
  lemma {:induction false} RunAppend(n: Notifier, name: string, a: seq<Stimulus>, b: seq<Stimulus>)
    ensures Run(n, name, a + b) == Run(Run(n, name, a), name, b)
    decreases |a|
  {
    if a == [] {
      assert a + b == b;
    } else {
      assert a + b != [] && (a + b)[0] == a[0];
      assert (a + b)[1..] == a[1..] + b;
      RunAppend(Step(n, name, a[0]), name, a[1..], b);
    }
  }

  /**
   * Whatever happens, at most one callback is ever scheduled, the log is
   * only appended to, and every event is a `'field'` change of this field
   * with old value `''`.
   */
  lemma {:induction false} RunValid(n: Notifier, name: string, trace: seq<Stimulus>)
    requires Valid(n)
    ensures Valid(Run(n, name, trace)) && Run(n, name, trace).scheduled <= 1
    ensures n.fired <= Run(n, name, trace).fired
    ensures forall i :: |n.fired| <= i < |Run(n, name, trace).fired| ==>
      Run(n, name, trace).fired[i].element == "field" && Run(n, name, trace).fired[i].name == name
      && Run(n, name, trace).fired[i].oldValue == ""
    decreases |trace|
  {
    if trace != [] {
      var m := Step(n, name, trace[0]);
      StepValid(n, name, trace[0]);
      RunValid(m, name, trace[1..]);
    }
  }

  /**
   * Each fired event answers a distinct notification: the number of events
   * fired is at most the number of notifications, plus one if a callback
   * was already scheduled at the start.
   */
  lemma {:induction false} FiredAtMostNotified(n: Notifier, name: string, trace: seq<Stimulus>)
    requires Valid(n)
    ensures |Run(n, name, trace).fired| + Run(n, name, trace).scheduled
      <= |n.fired| + n.scheduled + CountNotify(trace)
    decreases |trace|
  {
    if trace != [] {
      StepValid(n, name, trace[0]);
      FiredAtMostNotified(Step(n, name, trace[0]), name, trace[1..]);
    }
  }

  /** A burst of notifications leaves the state as a single one would. */
  lemma {:induction false} BurstIsOneRaise(n: Notifier, name: string, k: nat)
    requires k >= 1
    ensures Run(n, name, Notifies(k)) == Raise(n)
    decreases k
  {
    if k > 1 {
      RaiseIdempotent(n);
      BurstIsOneRaise(Raise(n), name, k - 1);
      assert Notifies(k)[1..] == Notifies(k - 1);
    }
  }

  /**
   * Any number (at least one) of notifications inside one window, followed
   * by the delay elapsing, fires exactly one event, carrying the points at
   * fire time, and leaves the notifier idle again.
   */
  lemma OneWindow(n: Notifier, name: string, k: nat, pointsJson: string)
    requires Valid(n) && !n.eventTimeout && k >= 1
    ensures Run(n, name, Notifies(k) + [Elapse(pointsJson)])
      == n.(fired := n.fired + [Change("field", name, "", pointsJson)])
  {
    RunAppend(n, name, Notifies(k), [Elapse(pointsJson)]);
    BurstIsOneRaise(n, name, k);
  }

  /** Two windows, each closed by the delay elapsing, fire two events, one per window. */
  lemma TwoWindows(n: Notifier, name: string, k1: nat, p1: string, k2: nat, p2: string)
    requires Valid(n) && !n.eventTimeout && k1 >= 1 && k2 >= 1
    ensures Run(n, name, Notifies(k1) + [Elapse(p1)] + Notifies(k2) + [Elapse(p2)])
      == n.(fired := n.fired + [Change("field", name, "", p1), Change("field", name, "", p2)])
  {
    var w1 := Notifies(k1) + [Elapse(p1)];
    var w2 := Notifies(k2) + [Elapse(p2)];
    assert w1 + Notifies(k2) + [Elapse(p2)] == w1 + w2;
    RunAppend(n, name, w1, w2);
    OneWindow(n, name, k1, p1);
    var m := n.(fired := n.fired + [Change("field", name, "", p1)]);
    OneWindow(m, name, k2, p2);
  }
}
