/**
 * The bezier-curve field (`Blockly.FieldBezier`): its parsed options, the
 * `points` attribute it keeps on a private element, and the flag that
 * debounces its change events.
 */
module FieldBezierField {
  import opened Options
  import opened ArgsParser
  import opened ChangeNotifier

  class FieldBezier {
    /** The field's name, read when a change event is fired. */
    const name: string
    /** The options parsed once, at construction. */
    var args: map<string, ArgValue>
    /** The `points` attribute of the value element; `None` until it is first set. */
    var points: Option<string>
    /** True while a change event is pending. */
    var eventTimeout: bool
    /** Timer callbacks set by `RaiseChangeEvent` that have not run yet. */
    var scheduled: nat
    /** The change events handed to the host's event bus, oldest first. */
    ghost var events: seq<ChangeEvent>

    /** The debouncer's part of the state, as a value. */
    ghost function NotifierOf(): Notifier
      reads this
    {
      Notifier(eventTimeout, scheduled, events)
    }

    /** At most one callback is pending, and exactly while the flag is set. */
    ghost predicate Valid()
      reads this
    {
      ChangeNotifier.Valid(NotifierOf())
    }

    /**
     * The constructor: parses the option argument (`None` for a value that
     * is not a string) and starts idle, with no points stored and no event.
     */
    constructor (argsStr: Option<string>, name: string)
      ensures Valid()
      ensures this.name == name && args == Parse(argsStr)
      ensures points == None && !eventTimeout && scheduled == 0 && events == []
      ensures NotifierOf() == Initial()
    {
      var parsed := CreateArgsObj(argsStr);
      this.name := name;
      args := parsed;
      points := None;
      eventTimeout := false;
      scheduled := 0;
      events := [];
    }

    /** `getValue`: the stored `points` attribute, `None` while it was never set. */
    method GetValue() returns (v: Option<string>)
      ensures v == points
    {
      v := points;
    }

    /** `setValue`: stores the string verbatim; nothing else changes. */
    method SetValue(pointsJson: string)
      modifies this`points
      ensures points == Some(pointsJson)
    {
      points := Some(pointsJson);
    }

    /**
     * `init`'s `setValue(getValue())`: a stored value is stored again, so it
     * is unchanged. When none was ever stored, the DOM turns the `null` it
     * is given into the string `"null"`.
     */
    method Init()
      modifies this`points
      ensures points == if old(points).Some? then old(points) else Some("null")
    {
      var v := GetValue();
      match v
      case Some(s) => SetValue(s);
      case None => SetValue("null");
    }

    /** `getText`: the text shown for a collapsed block, a constant independent of the points. */
    method GetText() returns (t: string)
      ensures t == "getText"
    {
      t := "getText";
    }

    /**
     * `RaiseChangeEvent`: while idle, sets the flag and schedules one
     * callback; while pending, changes nothing.
     */
    method RaiseChangeEvent()
      requires Valid()
      modifies this`eventTimeout, this`scheduled
      ensures Valid() && eventTimeout && scheduled == 1
      ensures old(eventTimeout) ==> unchanged(this)
      ensures NotifierOf() == Raise(old(NotifierOf()))
    {
      if !eventTimeout {
        eventTimeout := true;
        scheduled := scheduled + 1;
      }
    }

    /**
     * The timer callback set by `RaiseChangeEvent`: clears the flag and fires
     * one change whose new value is the curve's points at this moment.
     */
    method TimerFire(currentPointsJson: string)
      requires Valid() && eventTimeout
      modifies this`eventTimeout, this`scheduled, this`events
      ensures Valid() && !eventTimeout && scheduled == 0
      ensures events == old(events) + [Change("field", name, "", currentPointsJson)]
      ensures NotifierOf() == Fire(old(NotifierOf()), name, currentPointsJson)
    {
      eventTimeout := false;
      scheduled := scheduled - 1;
      events := events + [Change("field", name, "", currentPointsJson)];
    }
  }

  /**
   * What a caller of the field can rely on: the store round-trips, repeated
   * change notifications during one window give one event with the points
   * at fire time, and a later notification opens a new window.
   */
  method FieldScenario(p1: string, p2: string, p3: string)
  {
    var f := new FieldBezier(None, "CURVE");
    assert f.args == map[];

    var v := f.GetValue();
    assert v == None;
    f.SetValue(p1);
    f.Init();
    v := f.GetValue();
    assert v == Some(p1);

    f.RaiseChangeEvent();
    f.RaiseChangeEvent();
    f.RaiseChangeEvent();
    f.TimerFire(p2);
    assert f.events == [Change("field", "CURVE", "", p2)];

    f.RaiseChangeEvent();
    f.TimerFire(p3);
    assert f.events == [Change("field", "CURVE", "", p2), Change("field", "CURVE", "", p3)];
    v := f.GetValue();
    assert v == Some(p1);
  }
}
