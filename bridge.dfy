/**
 * The bridge between the adapted reading stream and the thing: the first
 * reading seeds one property per code, and every later reading is pushed
 * into the cached values, each write followed by its notification.
 */
module Bridge {
  import opened Wrappers
  import opened Obis
  import opened Cosem
  import opened Normalise
  import opened WebThing

  /** Why the process (at startup) or the updater thread (later) panics. */
  datatype Panic =
    | NoFirstReading
    | ConversionFailed(conversion: ConversionError)
    | StreamFailed(decode: DecodeError)
    | UnknownProperty(name: string)

  /** How the updater thread ends: its stream runs dry, or it panics. */
  datatype Stop = Exhausted | Aborted(reason: Panic)

  /** The state machine: startup panics, startup fails, or the updater runs until it stops. */
  datatype Status =
    | StartupPanicked(reason: Panic)
    | StartupFailed(error: DecodeError)
    | UpdaterStopped(stop: Stop)

  function ValueOf(e: Entry): Data {
    e.register.value
  }

  /** The description a register's property gets: a read-only numeric level titled by its code. */
  function LevelDescription(e: Entry): (d: Description)
    ensures d.readOnly && d.title == ToString(e.code) && d.unit == e.register.unit
  {
    Description("LevelProperty", ToString(e.code), "number", e.register.unit, true)
  }

  /** The property names a reading refers to. */
  function Names(es: Reading): (names: set<string>) {
    set i | 0 <= i < |es| :: ToString(es[i].code)
  }

  lemma NamesSnoc(es: Reading)
    requires es != []
    ensures Names(es) == Names(es[..|es| - 1]) + {ToString(es[|es| - 1].code)}
  {
    var init := es[..|es| - 1];
    forall n | n in Names(es) ensures n in Names(init) + {ToString(es[|es| - 1].code)} {
      var i :| 0 <= i < |es| && n == ToString(es[i].code);
      if i < |es| - 1 {
        assert init[i] == es[i];
      }
    }
    forall n | n in Names(init) ensures n in Names(es) {
      var i :| 0 <= i < |init| && n == ToString(init[i].code);
      assert es[i] == init[i];
    }
  }

  /** Each entry of `es`, in order, stores `f` of itself under its code's name. */
  function Assign<V>(m: map<string, V>, es: Reading, f: Entry -> V): (r: map<string, V>)
    ensures r.Keys == m.Keys + Names(es)
  {
    if es == [] then m
    else
      var last := es[|es| - 1];
      NamesSnoc(es);
      Assign(m, es[..|es| - 1], f)[ToString(last.code) := f(last)]
  }

  lemma {:induction false} AssignAt<V>(m: map<string, V>, es: Reading, f: Entry -> V, i: nat)
    requires DistinctCodes(es) && i < |es|
    ensures Assign(m, es, f)[ToString(es[i].code)] == f(es[i])
  {
    var n := |es| - 1;
    if i < n {
      ToStringInjective(es[i].code, es[n].code);
      var init := es[..n];
      assert init[i] == es[i];
      AssignAt(m, init, f, i);
    }
  }

  lemma {:induction false} AssignOutside<V>(m: map<string, V>, es: Reading, f: Entry -> V, name: string)
    requires name in m && name !in Names(es)
    ensures Assign(m, es, f)[name] == m[name]
  {
    if es != [] {
      NamesSnoc(es);
      AssignOutside(m, es[..|es| - 1], f, name);
    }
  }

  /** The notifications a sequence of entries sends, one per entry. */
  function Notes(es: Reading): (ns: seq<Notification>) {
    if es == [] then []
    else
      var last := es[|es| - 1];
      Notes(es[..|es| - 1]) + [Notification(ToString(last.code), last.register.value)]
  }

  /** The protocol steps a sequence of entries produces. */
  function Trace(es: Reading): (steps: seq<Event>) {
    if es == [] then []
    else
      var last := es[|es| - 1];
      var name := ToString(last.code);
      Trace(es[..|es| - 1]) + [Wrote(name, last.register.value), Notified(name, last.register.value)]
  }

  /** Exactly one notification per entry, in the reading's order, carrying its name and value. */
  lemma {:induction false} NotesInOrder(es: Reading)
    ensures |Notes(es)| == |es|
    ensures forall i :: 0 <= i < |es| ==>
      Notes(es)[i] == Notification(ToString(es[i].code), es[i].register.value)
  {
    if es != [] {
      var init := es[..|es| - 1];
      NotesInOrder(init);
      forall i | 0 <= i < |init| ensures init[i] == es[i] {}
    }
  }

  /** Every notification comes right after the write of the same name and value. */
  lemma {:induction false} WritesBeforeNotifies(es: Reading)
    ensures |Trace(es)| == 2 * |es|
    ensures forall i :: 0 <= i < |es| ==>
      && Trace(es)[2 * i] == Wrote(ToString(es[i].code), es[i].register.value)
      && Trace(es)[2 * i + 1] == Notified(ToString(es[i].code), es[i].register.value)
  {
    if es != [] {
      var init := es[..|es| - 1];
      WritesBeforeNotifies(init);
      forall i | 0 <= i < |init| ensures init[i] == es[i] {}
    }
  }

  /** The announcements that follow a batch of writes leave each written name's last announcement equal to its new value. */
  lemma {:induction false} LastNotifiedAfter(ns: seq<Notification>, m: map<string, Data>, es: Reading, name: string)
    ensures LastNotified(ns + Notes(es), name) ==
      if name in Names(es) then Some(Assign(m, es, ValueOf)[name]) else LastNotified(ns, name)
  {
    if es == [] {
      assert ns + Notes(es) == ns;
    } else {
      var init := es[..|es| - 1];
      var last := es[|es| - 1];
      var before := ns + Notes(init);
      var whole := ns + Notes(es);
      assert whole == before + [Notification(ToString(last.code), last.register.value)];
      assert whole[..|whole| - 1] == before;
      NamesSnoc(es);
      LastNotifiedAfter(ns, m, init, name);
    }
  }

  /** The length of the longest prefix of `es` whose names are all in `names`. */
  function KnownPrefix(names: set<string>, es: Reading): (k: nat)
    ensures k <= |es|
    ensures forall i :: 0 <= i < k ==> ToString(es[i].code) in names
    ensures k < |es| ==> ToString(es[k].code) !in names
  {
    if es == [] || ToString(es[0].code) !in names then 0
    else 1 + KnownPrefix(names, es[1..])
  }

  lemma KnownPrefixExtends(names: set<string>, es: Reading, i: nat)
    requires i <= KnownPrefix(names, es) && i < |es| && ToString(es[i].code) in names
    ensures i + 1 <= KnownPrefix(names, es)
  {
  }

  /** Extending a prefix of a reading by one entry extends its writes, notifications and steps by that entry's. */
  lemma PrefixStep(v: ThingView, r: Reading, i: nat)
    requires i < |r|
    ensures var name := ToString(r[i].code);
      && Assign(v.values, r[..i + 1], ValueOf) == Assign(v.values, r[..i], ValueOf)[name := r[i].register.value]
      && v.notifications + Notes(r[..i + 1]) == v.notifications + Notes(r[..i]) + [Notification(name, r[i].register.value)]
      && v.events + Trace(r[..i + 1]) ==
           v.events + Trace(r[..i]) + [Wrote(name, r[i].register.value)] + [Notified(name, r[i].register.value)]
  {
    assert r[..i + 1][..i] == r[..i];
  }

  /**
   * One later reading pushed into the thing: the entries before the first
   * unknown code are written and announced; the unknown name, if any, is
   * returned beside the new view.
   */
  function Apply(v: ThingView, r: Reading): (result: (ThingView, Option<string>))
  {
    var k := KnownPrefix(v.values.Keys, r);
    var done := r[..k];
    (ThingView(Assign(v.values, done, ValueOf), v.notifications + Notes(done), v.events + Trace(done)),
     if k == |r| then None else Some(ToString(r[k].code)))
  }

  /** The updater thread over the rest of the stream, from view `v`. */
  function Replay(v: ThingView, dec: Decoders, stream: seq<Result<Reading, DecodeError>>): (result: (ThingView, Stop))
    decreases |stream|
  {
    if stream == [] then (v, Exhausted)
    else
      match Adapt(dec, stream[0])
      case Panicked(e) => (v, Aborted(ConversionFailed(e)))
      case Yielded(Err(e)) => (v, Aborted(StreamFailed(e)))
      case Yielded(Ok(r)) =>
        var (w, missing) := Apply(v, r);
        if missing.None? then Replay(w, dec, stream[1..])
        else (w, Aborted(UnknownProperty(missing.value)))
  }

  /** The view right after the first reading seeded the properties. */
  function Initial(first: Reading): (v: ThingView) {
    ThingView(Assign(map[], first, ValueOf), [], [])
  }

  /** The whole bridge over a stream: startup from its first element, then the updater over the rest. */
  function Serving(dec: Decoders, stream: seq<Result<Reading, DecodeError>>): (result: (ThingView, Status))
  {
    var empty := ThingView(map[], [], []);
    if stream == [] then (empty, StartupPanicked(NoFirstReading))
    else
      match Adapt(dec, stream[0])
      case Panicked(e) => (empty, StartupPanicked(ConversionFailed(e)))
      case Yielded(Err(e)) => (empty, StartupFailed(e))
      case Yielded(Ok(first)) =>
        var (v, stop) := Replay(Initial(first), dec, stream[1..]);
        (v, UpdaterStopped(stop))
  }

  // ---------------------------------------------------------------------
  // Properties of the specification

  /** Initialisation creates exactly one property per code of the first reading, holding that reading's value. */
  lemma InitialProperties(first: Reading)
    requires DistinctCodes(first)
    ensures Initial(first).values.Keys == Names(first)
    ensures forall i :: 0 <= i < |first| ==>
      Initial(first).values[ToString(first[i].code)] == first[i].register.value
    ensures Synchronised(Initial(first))
  {
    forall i | 0 <= i < |first|
      ensures Initial(first).values[ToString(first[i].code)] == first[i].register.value
    {
      AssignAt(map[], first, ValueOf, i);
    }
  }

  /** Applying a reading never adds or removes a property. */
  lemma ApplyKeepsPropertySet(v: ThingView, r: Reading)
    ensures Apply(v, r).0.values.Keys == v.values.Keys
  {
    var k := KnownPrefix(v.values.Keys, r);
    var done := r[..k];
    forall n | n in Names(done) ensures n in v.values {
      var i :| 0 <= i < |done| && n == ToString(done[i].code);
      assert done[i] == r[i];
    }
  }

  /** A reading is applied in full exactly when every one of its codes is a known property. */
  lemma ApplyCompleteIff(v: ThingView, r: Reading)
    ensures Apply(v, r).1.None? <==> Names(r) <= v.values.Keys
  {
    var k := KnownPrefix(v.values.Keys, r);
    if k < |r| {
      assert ToString(r[k].code) in Names(r);
    }
  }

  /**
   * A fully applied reading writes every entry, then appends exactly one
   * notification and one write-then-notify pair per entry, in reading order.
   */
  lemma ApplyComplete(v: ThingView, r: Reading)
    requires Apply(v, r).1.None?
    ensures Apply(v, r).0 == ThingView(Assign(v.values, r, ValueOf), v.notifications + Notes(r), v.events + Trace(r))
  {
    ApplyCompletePrefix(v, r);
    assert r[..|r|] == r;
  }

  /** Every code of a fully applied reading is a known property. */
  lemma ApplyCompletePrefix(v: ThingView, r: Reading)
    requires Apply(v, r).1.None?
    ensures KnownPrefix(v.values.Keys, r) == |r|
  {
  }

  /**
   * A fully applied reading sets each of its codes to its new value and
   * leaves every other property as it was.
   */
  lemma ApplyCompleteValues(v: ThingView, r: Reading)
    requires DistinctCodes(r) && Apply(v, r).1.None?
    ensures forall i :: 0 <= i < |r| ==> Apply(v, r).0.values[ToString(r[i].code)] == r[i].register.value
    ensures forall name :: name in v.values && name !in Names(r) ==> Apply(v, r).0.values[name] == v.values[name]
  {
    ApplyComplete(v, r);
    forall i | 0 <= i < |r| ensures Assign(v.values, r, ValueOf)[ToString(r[i].code)] == r[i].register.value {
      AssignAt(v.values, r, ValueOf, i);
    }
    forall name | name in v.values && name !in Names(r) ensures Assign(v.values, r, ValueOf)[name] == v.values[name] {
      AssignOutside(v.values, r, ValueOf, name);
    }
  }

  /**
   * A reading with an unknown code commits the entries before it, names it,
   * and leaves the entries after it unapplied.
   */
  lemma ApplyStopsAtUnknown(v: ThingView, r: Reading)
    requires DistinctCodes(r) && Apply(v, r).1.Some?
    ensures var k := KnownPrefix(v.values.Keys, r);
      && k < |r|
      && Apply(v, r).1 == Some(ToString(r[k].code))
      && ToString(r[k].code) !in v.values
      && (forall i :: 0 <= i < k ==> Apply(v, r).0.values[ToString(r[i].code)] == r[i].register.value)
      && (forall i :: k < i < |r| && ToString(r[i].code) in v.values ==>
            Apply(v, r).0.values[ToString(r[i].code)] == v.values[ToString(r[i].code)])
      && |Apply(v, r).0.notifications| == |v.notifications| + k
  {
    var k := KnownPrefix(v.values.Keys, r);
    var done := r[..k];
    assert DistinctCodes(done) by {
      forall i, j | 0 <= i < j < |done| ensures done[i].code != done[j].code {
        assert done[i] == r[i] && done[j] == r[j];
      }
    }
    forall i | 0 <= i < k ensures Apply(v, r).0.values[ToString(r[i].code)] == r[i].register.value {
      assert done[i] == r[i];
      AssignAt(v.values, done, ValueOf, i);
    }
    forall i | k < i < |r| && ToString(r[i].code) in v.values
      ensures Apply(v, r).0.values[ToString(r[i].code)] == v.values[ToString(r[i].code)]
    {
      var name := ToString(r[i].code);
      forall j | 0 <= j < |done| ensures ToString(done[j].code) != name {
        assert done[j] == r[j];
        ToStringInjective(r[j].code, r[i].code);
      }
      AssignOutside(v.values, done, ValueOf, name);
    }
    NotesInOrder(done);
  }

  /** Applying a reading keeps every cached value equal to its last announcement. */
  lemma ApplyKeepsSynchronised(v: ThingView, r: Reading)
    requires Synchronised(v)
    ensures Synchronised(Apply(v, r).0)
  {
    var k := KnownPrefix(v.values.Keys, r);
    ApplyKeepsPropertySet(v, r);
    CommitKeepsSynchronised(v, r[..k]);
  }

  /**
   * Writing and notifying a run of known properties keeps every property
   * equal to the value last notified for it.
   */
  lemma CommitKeepsSynchronised(v: ThingView, done: Reading)
    requires Synchronised(v) && Names(done) <= v.values.Keys
    ensures Synchronised(ThingView(Assign(v.values, done, ValueOf), v.notifications + Notes(done), v.events + Trace(done)))
  {
    var w := ThingView(Assign(v.values, done, ValueOf), v.notifications + Notes(done), v.events + Trace(done));
    NotesInOrder(done);
    forall i | 0 <= i < |w.notifications| ensures w.notifications[i].name in w.values {
      if i >= |v.notifications| {
        var j := i - |v.notifications|;
        assert w.notifications[i] == Notes(done)[j];
        assert ToString(done[j].code) in Names(done);
      }
    }
    forall name | name in w.values && LastNotified(w.notifications, name).Some?
      ensures w.values[name] == LastNotified(w.notifications, name).value
    {
      LastNotifiedAfter(v.notifications, v.values, done, name);
      if name !in Names(done) {
        AssignOutside(v.values, done, ValueOf, name);
      }
    }
  }

  /** The updater never adds or removes a property, whatever the stream holds. */
  lemma {:induction false} ReplayKeepsPropertySet(v: ThingView, dec: Decoders, stream: seq<Result<Reading, DecodeError>>)
    ensures Replay(v, dec, stream).0.values.Keys == v.values.Keys
    decreases |stream|
  {
    if stream != [] && Adapt(dec, stream[0]).Yielded? && Adapt(dec, stream[0]).item.Ok? {
      var r := Adapt(dec, stream[0]).item.value;
      ApplyKeepsPropertySet(v, r);
      if Apply(v, r).1.None? {
        ReplayKeepsPropertySet(Apply(v, r).0, dec, stream[1..]);
      }
    }
  }

  /** The updater keeps every cached value equal to its last announcement, at every stop. */
  lemma {:induction false} ReplayKeepsSynchronised(v: ThingView, dec: Decoders, stream: seq<Result<Reading, DecodeError>>)
    requires Synchronised(v)
    ensures Synchronised(Replay(v, dec, stream).0)
    decreases |stream|
  {
    if stream != [] && Adapt(dec, stream[0]).Yielded? && Adapt(dec, stream[0]).item.Ok? {
      var r := Adapt(dec, stream[0]).item.value;
      ApplyKeepsSynchronised(v, r);
      if Apply(v, r).1.None? {
        ReplayKeepsSynchronised(Apply(v, r).0, dec, stream[1..]);
      }
    }
  }

  /** Once the updater has aborted, nothing that arrives later has any effect. */
  lemma {:induction false} ReplayAbortIsFinal(v: ThingView, dec: Decoders, s1: seq<Result<Reading, DecodeError>>, s2: seq<Result<Reading, DecodeError>>)
    requires Replay(v, dec, s1).1.Aborted?
    ensures Replay(v, dec, s1 + s2) == Replay(v, dec, s1)
    decreases |s1|
  {
    assert (s1 + s2)[0] == s1[0];
    assert (s1 + s2)[1..] == s1[1..] + s2;
    if Adapt(dec, s1[0]).Yielded? && Adapt(dec, s1[0]).item.Ok? {
      var r := Adapt(dec, s1[0]).item.value;
      if Apply(v, r).1.None? {
        ReplayAbortIsFinal(Apply(v, r).0, dec, s1[1..], s2);
      }
    }
  }

  /** Readings are processed one after another: a stream that runs dry hands its view to the rest. */
  lemma {:induction false} ReplayThenReplay(v: ThingView, dec: Decoders, s1: seq<Result<Reading, DecodeError>>, s2: seq<Result<Reading, DecodeError>>)
    requires Replay(v, dec, s1).1 == Exhausted
    ensures Replay(v, dec, s1 + s2) == Replay(Replay(v, dec, s1).0, dec, s2)
    decreases |s1|
  {
    if s1 == [] {
      assert s1 + s2 == s2;
    } else {
      assert (s1 + s2)[0] == s1[0];
      assert (s1 + s2)[1..] == s1[1..] + s2;
      var r := Adapt(dec, s1[0]).item.value;
      ReplayThenReplay(Apply(v, r).0, dec, s1[1..], s2);
    }
  }

  /**
   * Startup succeeds exactly when the stream's first element is a reading
   * that converts; then the property set is that reading's codes for good,
   * and no cached value is ever behind its last announcement.
   */
  lemma ServingSeedsFromFirst(dec: Decoders, stream: seq<Result<Reading, DecodeError>>)
    ensures Serving(dec, stream).1.UpdaterStopped? <==>
      stream != [] && Adapt(dec, stream[0]).Yielded? && Adapt(dec, stream[0]).item.Ok?
    ensures Serving(dec, stream).1.UpdaterStopped? ==>
      && Serving(dec, stream).0.values.Keys == Names(Adapt(dec, stream[0]).item.value)
      && Synchronised(Serving(dec, stream).0)
  {
    if stream != [] && Adapt(dec, stream[0]).Yielded? && Adapt(dec, stream[0]).item.Ok? {
      var first := Adapt(dec, stream[0]).item.value;
      assert Synchronised(Initial(first));
      ReplayKeepsPropertySet(Initial(first), dec, stream[1..]);
      ReplayKeepsSynchronised(Initial(first), dec, stream[1..]);
    }
  }

  lemma AdaptSerialNumber(dec: Decoders, bytes: seq<bv8>, text: string)
    requires dec.fromUtf8(bytes) == Some(text)
    ensures Adapt(dec, Ok([Entry(SerialNumber, Register(OctetString(bytes), None))]))
         == Yielded(Ok([Entry(SerialNumber, Register(Utf8String(text), None))]))
  {
    var r := [Entry(SerialNumber, Register(OctetString(bytes), None))];
    var r' := [Entry(SerialNumber, Register(Utf8String(text), None))];
    assert TargetOf(SerialNumber) == Some(ToText);
    NormalizeMatchesTable(dec, r);
    assert NormalizeValue(dec, r[0].code, r[0].register.value) == Ok(Utf8String(text));
    assert Normalize(dec, r).value[0] == r'[0];
    assert Normalize(dec, r).value == r';
  }

  lemma SerialNumberName()
    ensures ToString(SerialNumber) == "0.0.96.1.0.255"
  {
    assert Decimal(96) == "96";
    assert Decimal(255) == "255";
  }

  lemma ApplySerialNumber(s1: string, s2: string)
    ensures var name := ToString(SerialNumber);
      Apply(Initial([Entry(SerialNumber, Register(Utf8String(s1), None))]),
            [Entry(SerialNumber, Register(Utf8String(s2), None))]) ==
        (ThingView(map[name := Utf8String(s2)],
                   [Notification(name, Utf8String(s2))],
                   [Wrote(name, Utf8String(s2)), Notified(name, Utf8String(s2))]),
         None)
  {
    var name := ToString(SerialNumber);
    var first := [Entry(SerialNumber, Register(Utf8String(s1), None))];
    var later := [Entry(SerialNumber, Register(Utf8String(s2), None))];
    var v0 := Initial(first);
    assert first[..0] == [];
    assert v0.values == map[name := Utf8String(s1)];
    assert KnownPrefix(v0.values.Keys, later) == 1;
    assert later[..1] == later;
    assert later[..0] == [];
    var v1 := Apply(v0, later);
    assert v1.0.values == map[name := Utf8String(s2)];
    assert Notes(later) == [Notification(name, Utf8String(s2))];
    assert v1.0.notifications == [] + Notes(later);
    assert Trace(later) == [Wrote(name, Utf8String(s2)), Notified(name, Utf8String(s2))];
    assert v1.0.events == [] + Trace(later);
  }

  /**
   * A serial number sent as bytes seeds its property as text, and a later
   * reading of new bytes replaces the text and sends exactly one notification.
   */
  lemma SerialNumberScenario(dec: Decoders, sent: seq<bv8>, resent: seq<bv8>, s1: string, s2: string)
    requires dec.fromUtf8(sent) == Some(s1) && dec.fromUtf8(resent) == Some(s2)
    ensures var first := [Entry(SerialNumber, Register(OctetString(sent), None))];
      var later := [Entry(SerialNumber, Register(OctetString(resent), None))];
      Serving(dec, [Ok(first), Ok(later)]) ==
        (ThingView(map["0.0.96.1.0.255" := Utf8String(s2)],
                   [Notification("0.0.96.1.0.255", Utf8String(s2))],
                   [Wrote("0.0.96.1.0.255", Utf8String(s2)), Notified("0.0.96.1.0.255", Utf8String(s2))]),
         UpdaterStopped(Exhausted))
  {
    SerialNumberName();
    var first := [Entry(SerialNumber, Register(OctetString(sent), None))];
    var later := [Entry(SerialNumber, Register(OctetString(resent), None))];
    var first' := [Entry(SerialNumber, Register(Utf8String(s1), None))];
    var later' := [Entry(SerialNumber, Register(Utf8String(s2), None))];
    AdaptSerialNumber(dec, sent, s1);
    AdaptSerialNumber(dec, resent, s2);
    ApplySerialNumber(s1, s2);
    var v1 := Apply(Initial(first'), later').0;
    var rest: seq<Result<Reading, DecodeError>> := [Ok(later)];
    assert rest[1..] == [];
    assert Replay(v1, dec, []) == (v1, Exhausted);
    assert Replay(Initial(first'), dec, rest) == (v1, Exhausted);
    var stream: seq<Result<Reading, DecodeError>> := [Ok(first), Ok(later)];
    assert stream[1..] == rest;
  }

  /** A later reading naming a code the first reading lacked changes nothing and reports that code. */
  lemma UnknownCodeScenario(v: ThingView, value: Data)
    requires "9.9.9.9.9.9" !in v.values
    ensures Apply(v, [Entry(ObisCode(9, 9, 9, 9, 9, 9), Register(value, None))]) == (v, Some("9.9.9.9.9.9"))
  {
    var r := [Entry(ObisCode(9, 9, 9, 9, 9, 9), Register(value, None))];
    assert ToString(r[0].code) == "9.9.9.9.9.9";
    assert KnownPrefix(v.values.Keys, r) == 0;
    assert v.notifications + Notes(r[..0]) == v.notifications;
    assert v.events + Trace(r[..0]) == v.events;
  }

  // ---------------------------------------------------------------------
  // The bridge as it runs

  /** Seeds the thing with one property per entry of the first reading. */
  method Initialize(thing: Thing, first: Reading)
    requires thing.Valid()
    modifies thing
    ensures thing.Valid()
    ensures thing.values == Assign(old(thing.values), first, ValueOf)
    ensures thing.descriptions == Assign(old(thing.descriptions), first, LevelDescription)
    ensures thing.notifications == old(thing.notifications) && thing.events == old(thing.events)
  {
    for i := 0 to |first|
      invariant thing.Valid()
      invariant thing.values == Assign(old(thing.values), first[..i], ValueOf)
      invariant thing.descriptions == Assign(old(thing.descriptions), first[..i], LevelDescription)
      invariant thing.notifications == old(thing.notifications) && thing.events == old(thing.events)
    {
      assert first[..i + 1][..i] == first[..i];
      thing.AddProperty(ToString(first[i].code), first[i].register.value, LevelDescription(first[i]));
    }
    assert first[..|first|] == first;
  }

  /**
   * Pushes one later reading into the thing: for each entry in order, look
   * the property up, write its cached value, then notify. Returns the name
   * of the first unknown property, at which the update stops.
   */
  method ApplyReading(thing: Thing, r: Reading) returns (missing: Option<string>)
    requires thing.Valid()
    modifies thing
    ensures thing.Valid() && thing.descriptions == old(thing.descriptions)
    ensures (thing.View(), missing) == Apply(old(thing.View()), r)
  {
    ghost var v := thing.View();
    var i := 0;
    while i < |r|
      invariant 0 <= i <= |r|
      invariant i <= KnownPrefix(v.values.Keys, r)
      invariant thing.Valid() && thing.descriptions == old(thing.descriptions)
      invariant thing.values == Assign(v.values, r[..i], ValueOf)
      invariant thing.values.Keys == v.values.Keys
      invariant thing.notifications == v.notifications + Notes(r[..i])
      invariant thing.events == v.events + Trace(r[..i])
    {
      var name := ToString(r[i].code);
      var found := thing.FindProperty(name);
      if !found {
        assert KnownPrefix(v.values.Keys, r) == i;
        assert thing.View() == Apply(v, r).0;
        return Some(name);
      }
      KnownPrefixExtends(v.values.Keys, r, i);
      PrefixStep(v, r, i);
      var value := r[i].register.value;
      thing.SetCachedValue(name, value);
      thing.PropertyNotify(name, value);
      i := i + 1;
    }
    assert r[..|r|] == r;
    assert thing.View() == Apply(v, r).0;
    return None;
  }

  /** The updater thread: pulls each element of the adapted stream and applies it, until one panics. */
  method Run(thing: Thing, dec: Decoders, stream: seq<Result<Reading, DecodeError>>) returns (stop: Stop)
    requires thing.Valid()
    modifies thing
    ensures thing.Valid() && thing.descriptions == old(thing.descriptions)
    ensures (thing.View(), stop) == Replay(old(thing.View()), dec, stream)
  {
    var i := 0;
    while i < |stream|
      invariant 0 <= i <= |stream|
      invariant thing.Valid() && thing.descriptions == old(thing.descriptions)
      invariant Replay(old(thing.View()), dec, stream) == Replay(thing.View(), dec, stream[i..])
    {
      assert stream[i..][0] == stream[i] && stream[i..][1..] == stream[i + 1..];
      match Adapt(dec, stream[i]) {
        case Panicked(e) =>
          return Aborted(ConversionFailed(e));
        case Yielded(Err(e)) =>
          return Aborted(StreamFailed(e));
        case Yielded(Ok(r)) =>
          var missing := ApplyReading(thing, r);
          if missing.Some? {
            return Aborted(UnknownProperty(missing.value));
          }
          i := i + 1;
      }
    }
    return Exhausted;
  }

  /**
   * The bridge end to end: a fresh thing, seeded from the first element of
   * the adapted stream, then updated from the rest by the updater.
   */
  method Serve(dec: Decoders, stream: seq<Result<Reading, DecodeError>>) returns (status: Status, thing: Thing)
    ensures fresh(thing) && thing.Valid()
    ensures (thing.View(), status) == Serving(dec, stream)
    ensures status.UpdaterStopped? ==>
      thing.descriptions == Assign(map[], Adapt(dec, stream[0]).item.value, LevelDescription)
  {
    thing := new Thing();
    if stream == [] {
      return StartupPanicked(NoFirstReading), thing;
    }
    match Adapt(dec, stream[0])
    case Panicked(e) =>
      status := StartupPanicked(ConversionFailed(e));
    case Yielded(Err(e)) =>
      status := StartupFailed(e);
    case Yielded(Ok(first)) =>
      Initialize(thing, first);
      var stop := Run(thing, dec, stream[1..]);
      status := UpdaterStopped(stop);
  }
}
