/**
 * The exposed thing: one read-only property per OBIS code, each holding a
 * cached value, and the notifications sent to subscribers when a value is
 * pushed. The ghost event log records the order of writes and notifications.
 */
module WebThing {
  import opened Wrappers
  import opened Cosem

  /** The JSON description given to a property when it is added. */
  datatype Description = Description(
    atType: string, title: string, valueType: string, unit: Option<string>, readOnly: bool)

  /** A property-status message sent to subscribers. */
  datatype Notification = Notification(name: string, value: Data)

  /** One step of the update protocol: a cached-value write or a notification. */
  datatype Event = Wrote(name: string, value: Data) | Notified(name: string, value: Data)

  /** The value most recently announced for `name`, if one was. */
  function LastNotified(ns: seq<Notification>, name: string): Option<Data>
  {
    if ns == [] then None
    else if ns[|ns| - 1].name == name then Some(ns[|ns| - 1].value)
    else LastNotified(ns[..|ns| - 1], name)
  }

  /** What the update logic can observe of a thing: cached values, notifications sent, and the event log. */
  datatype ThingView = ThingView(values: map<string, Data>, notifications: seq<Notification>, events: seq<Event>)

  /**
   * No subscriber was told of a value the thing no longer holds, and no
   * notification names a property the thing does not have.
   */
  ghost predicate Synchronised(v: ThingView) {
    && (forall i :: 0 <= i < |v.notifications| ==> v.notifications[i].name in v.values)
    && (forall name :: name in v.values && LastNotified(v.notifications, name).Some? ==>
          v.values[name] == LastNotified(v.notifications, name).value)
  }

  class Thing {
    /** The cached value of each property, by property name. */
    var values: map<string, Data>
    /** The description of each property, by property name. */
    var descriptions: map<string, Description>
    /** The notifications sent so far, oldest first. */
    var notifications: seq<Notification>
    ghost var events: seq<Event>

    ghost predicate Valid()
      reads this
    {
      values.Keys == descriptions.Keys
    }

    ghost function View(): ThingView
      reads this
    {
      ThingView(values, notifications, events)
    }

    /** A thing with no properties yet. */
    constructor ()
      ensures Valid()
      ensures values == map[] && descriptions == map[] && notifications == [] && events == []
    {
      values, descriptions, notifications, events := map[], map[], [], [];
    }

    /** Adds (or replaces) the property `name` with an initial cached value. */
    method AddProperty(name: string, value: Data, description: Description)
      requires Valid()
      modifies this
      ensures Valid()
      ensures values == old(values)[name := value]
      ensures descriptions == old(descriptions)[name := description]
      ensures notifications == old(notifications) && events == old(events)
    {
      values := values[name := value];
      descriptions := descriptions[name := description];
    }

    /** Whether the thing has a property called `name`. */
    method FindProperty(name: string) returns (found: bool)
      requires Valid()
      ensures found <==> name in values && name in descriptions
    {
      found := name in values;
    }

    /** Replaces the cached value of an existing property; subscribers are not told. */
    method SetCachedValue(name: string, value: Data)
      requires Valid() && name in values
      modifies this
      ensures Valid()
      ensures values == old(values)[name := value] && values.Keys == old(values).Keys
      ensures descriptions == old(descriptions) && notifications == old(notifications)
      ensures events == old(events) + [Wrote(name, value)]
    {
      values := values[name := value];
      events := events + [Wrote(name, value)];
    }

    /** Tells every subscriber that `name` now has `value`. */
    method PropertyNotify(name: string, value: Data)
      requires Valid()
      modifies this
      ensures Valid()
      ensures values == old(values) && descriptions == old(descriptions)
      ensures notifications == old(notifications) + [Notification(name, value)]
      ensures events == old(events) + [Notified(name, value)]
    {
      notifications := notifications + [Notification(name, value)];
      events := events + [Notified(name, value)];
    }
  }
}
