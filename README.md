# smart-meter-server, modelled in Dafny

`smart-meter-server` reads a DLMS/COSEM smart meter and exposes it as a Web
Thing. This project models the core of `src/main.rs`, which bridges the
meter's reading stream and the thing. It covers three parts:

- **The reading adapter** (`src/main.rs:63-81`). Every decoded reading passes
  through a fixed table. The octet string at the clock code `0.0.1.0.0.255`
  becomes a COSEM date-time. The octet strings at the device-name code
  `0.0.42.0.0.255` and the serial-number code `0.0.96.1.0.255` become UTF-8
  text. A decode error passes through unchanged. A malformed value panics.
- **Initialisation** (`src/main.rs:90-107`). The first element of the adapted
  stream must be a reading. Each entry of that reading becomes a read-only
  `LevelProperty`, named by its OBIS code's text and holding the entry's value.
- **The updater** (`src/main.rs:115-126`). Each later reading is pushed into
  the thing entry by entry. For each entry the updater finds the property,
  writes its cached value, then notifies subscribers. It panics on a decode
  error or on a code the first reading lacked.

Modules, one per file:

- `wrappers.dfy` (`Wrappers`): `Option` and `Result`.
- `obis.dfy` (`Obis`): OBIS codes, their dotted-decimal names, and the proof
  that distinct codes get distinct names.
- `cosem.dfy` (`Cosem`): data values, registers and readings.
- `normalise.dfy` (`Normalise`): the two conversion closures, `convert`, the
  three-step normalisation and the adapter closure.
- `webthing.dfy` (`WebThing`): the thing as a class, with mutable cached
  values, descriptions and sent notifications, plus a ghost log of writes and
  notifications.
- `bridge.dfy` (`Bridge`): initialisation, one reading's update, the updater
  loop and the whole run. Each imperative method is proved equal to a pure
  specification (`Apply`, `Replay`, `Serving`), and the properties are
  proved about those specifications.

Behaviour of `src/main.rs` worth noting, all of which the model keeps:

- An empty first reading (`Ok` with no entries) is not an error. It yields a
  thing with no properties, and the updater then stops at the first code of
  any later non-empty reading.
- Every property gets the type `"number"`, whatever the shape of its value.
- Date-time parsing keeps only the parsed date-time (`.unwrap().1`). Any
  bytes left after it are discarded.
- At an unknown code the entries before it have already been written and
  notified when the updater panics. `Bridge.ApplyStopsAtUnknown` states this.

Panics and errors are values:

- A panic at startup, or the `?` on the first element, ends as
  `StartupPanicked` or `StartupFailed`.
- A panic in the updater thread ends the thread with `Aborted`, and the
  model's final view is the thing as it was at that moment. Two of the three
  panics come before the write lock is taken: a conversion panic inside
  `next()` (`src/main.rs:115`) and a decode-error panic (`src/main.rs:116`).
  After either of them the lock is intact and the server can still read the
  thing. The unknown-property panic (`src/main.rs:122`) happens while the
  write guard taken at `src/main.rs:118` is held. That poisons the lock, so
  every later read of the thing through it fails. The model's final view is
  then the state left behind the poisoned lock, not one the server can
  still read.

## Model

| member | source | states |
|---|---|---|
| Normalise.ConvertDateTime | src/main.rs:65-68 | A non-octet value is returned unchanged. An octet string fails exactly when the date-time parser rejects it. Otherwise it becomes the parsed date-time with the trailing bytes dropped, and never an octet string. |
| Normalise.ConvertString | src/main.rs:71-74 | A non-octet value is returned unchanged. An octet string fails exactly when it is not valid UTF-8. Otherwise it becomes the decoded text, and never an octet string. |
| Normalise.Convert | src/main.rs:69-76 | Converting at one code fails exactly when the closure fails on some entry with that code. On success it keeps length, order, codes and units, replaces each value at that code by the closure's result, and leaves every other register untouched. |
| Normalise.TargetOf | src/main.rs:69-76 | The conversion table: the clock code maps to date-time, the device-name and serial-number codes map to text, and only those. |
| Normalise.NormalizeValue | src/main.rs:65-76 | A code outside the table, or a non-octet value, is left unchanged. A successful conversion at a table code is never an octet string. |
| Normalise.NormalizeMatchesTable | src/main.rs:64-78 | The three successive conversions succeed exactly when every entry's table conversion succeeds. On success each entry is converted in place, with codes, units and order kept. |
| Normalise.NormalizeOnlyTouchesTable | src/main.rs:65-76 | An entry that is not an octet string, or whose code is outside the table, comes out of normalisation identical. |
| Normalise.NormalizeIdempotent | src/main.rs:64-78 | Normalising an already normalised reading returns it unchanged. |
| Normalise.Adapt | src/main.rs:63-81 | A decode error is yielded unchanged. A reading panics exactly when some entry fails to convert. Otherwise it is yielded normalised entry by entry. |
| Obis.ToStringInjective | src/main.rs:120 | Distinct OBIS codes have distinct property names, so a code's name identifies its property. |
| Bridge.SerialNumberName | src/main.rs:102 | The serial-number code names its property `0.0.96.1.0.255`. |
| WebThing.Thing.constructor | src/main.rs:83-88 | A new thing has no properties and has sent no notifications. |
| WebThing.Thing.AddProperty | src/main.rs:101-106 | Adding a property sets its cached value and description, keeps values and descriptions keyed alike, and sends nothing. |
| WebThing.Thing.FindProperty | src/main.rs:122 | The lookup succeeds exactly when the thing has a property of that name. |
| WebThing.Thing.SetCachedValue | src/main.rs:123 | Writing replaces only that property's cached value, adds no property, and sends no notification. |
| WebThing.Thing.PropertyNotify | src/main.rs:124 | Notifying appends exactly one notification with the name and value, and changes no cached value. |
| Bridge.LevelDescription | src/main.rs:93-100 | Each property is described as a read-only `LevelProperty` of type `number` that carries its register's unit. Its title is taken to be the code's property name (see Left out). |
| Bridge.Initialize | src/main.rs:92-107 | After initialisation the thing's values and descriptions are the old ones with one entry per entry of the first reading, in order. No notification is sent. |
| Bridge.InitialProperties | src/main.rs:92-107 | The property names after initialisation are exactly the names of the first reading's codes. Each property holds its entry's value, and the thing starts synchronised. |
| Bridge.KnownPrefix | src/main.rs:119-122 | The updater gets through exactly the longest prefix of a reading whose codes are all known properties. The entry after that prefix, if any, is unknown. |
| Bridge.ApplyReading | src/main.rs:118-125 | Pushing one reading leaves the thing exactly as `Apply` describes and keeps the descriptions. It returns the first unknown name, if there is one. |
| Bridge.NotesInOrder | src/main.rs:119-125 | Applying entries sends one notification per entry, in reading order, carrying that entry's name and new value. |
| Bridge.WritesBeforeNotifies | src/main.rs:119-125 | The protocol steps alternate: each entry's cached-value write comes immediately before its notification, with the same name and value. |
| Bridge.LastNotifiedAfter | src/main.rs:119-125 | After a batch of writes and notifications, the last value announced for a written name is its new cached value. Any other name keeps its earlier last announcement. |
| Bridge.ApplyKeepsPropertySet | src/main.rs:119-125 | Applying a reading never adds or removes a property. |
| Bridge.ApplyCompleteIff | src/main.rs:119-125 | A reading is applied in full exactly when all its codes are known properties. |
| Bridge.ApplyComplete | src/main.rs:119-125 | A fully applied reading writes every entry, then appends exactly its notifications and its write-then-notify steps. |
| Bridge.ApplyCompleteValues | src/main.rs:119-125 | After a reading with distinct codes is applied in full, each of its codes holds that entry's new value, and every other property is unchanged. |
| Bridge.ApplyStopsAtUnknown | src/main.rs:119-125 | At the first unknown code the update reports that code. The entries before it are written, the later ones are not, and exactly one notification is sent per committed entry. |
| Bridge.ApplyKeepsSynchronised | src/main.rs:119-125 | After a reading, every notification names an existing property, and every property equals the value last announced for it. |
| Bridge.CommitKeepsSynchronised | src/main.rs:119-125 | Writing and notifying a run of known properties keeps every cached value equal to its last announcement. |
| Bridge.Run | src/main.rs:115-126 | The updater loop leaves the thing and its stop reason exactly as `Replay` describes: the stream ran dry, or a conversion panic, a decode error or an unknown code stopped it. |
| Bridge.ReplayKeepsPropertySet | src/main.rs:115-126 | The updater never adds or removes a property, whatever the stream holds. |
| Bridge.ReplayKeepsSynchronised | src/main.rs:115-126 | At every stop of the updater, each cached value equals its last announcement. |
| Bridge.ReplayAbortIsFinal | src/main.rs:115-116 | Once the updater has panicked, nothing that arrives later has any effect. |
| Bridge.ReplayThenReplay | src/main.rs:115-126 | Readings are processed strictly one after another: updating over two streams in turn equals updating over their concatenation. |
| Bridge.Serve | src/main.rs:90-126 | A fresh thing ends exactly as `Serving` describes. When the updater ran, the descriptions are those of the first reading. |
| Bridge.ServingSeedsFromFirst | src/main.rs:90-126 | The updater starts exactly when the first stream element is a reading that converts. The property set then stays that reading's names for good, and the thing stays synchronised. |
| Bridge.SerialNumberScenario | src/main.rs:63-126 | A serial number sent as bytes seeds `0.0.96.1.0.255` as text. A later reading with new bytes replaces the text and sends exactly one notification with it. |
| Bridge.UnknownCodeScenario | src/main.rs:119-122 | A reading whose first code, `9.9.9.9.9.9`, is unknown changes nothing and reports that code. |

## Left out

- Environment variables, the serial and TCP transport, the decryption key and the DLMS frame decoder (`src/main.rs:33-61`) are input and output. The model starts from the decoder's stream, a finite sequence of readings or decode errors.
- The thing's identity, title, type tags and action generator (`src/main.rs:19-30`, `83-88`), and the web server (`src/main.rs:129-131`), are metadata and networking outside the bridge.
- Threads, `Arc` and `RwLock` (`src/main.rs:109-118`) are single-threaded here. The updater holds the write lock for a whole reading, so a reading's updates are modelled as one uninterrupted step. Concurrent readers are not modelled. Neither is the lock poisoning caused by the unknown-property panic, so the model does not capture that the server can no longer read the thing afterwards.
- `serde_json::to_value` and its `unwrap` (`src/main.rs:103`, `121`) are the identity on data values. The JSON description is a record with the same five fields.
- The text form of an OBIS code comes from its `Display` implementation in `dlms_cosem`, which is not part of this model. It is modelled as the six value groups in decimal, separated by dots. The general properties rely only on distinct codes having distinct names, which is proved. Three lemmas state literal names and hold only under this assumed format: `Bridge.SerialNumberName` and `Bridge.SerialNumberScenario` (`0.0.96.1.0.255`) and `Bridge.UnknownCodeScenario` (`9.9.9.9.9.9`).
- Bridge.LevelDescription: the title is modelled as the property name (`ToString` of the code). The source puts the code's serde serialisation into the description (`src/main.rs:95`), while the name comes from `to_string()` (`src/main.rs:102`). That serialisation lives in `dlms_cosem`, which is not part of this model, so the model does not promise the title's actual JSON form.
- `convert` on a reading lives in the `smart_meter` crate, which is not part of this model. It is modelled as rewriting the value of every entry with the given code, in order, and failing if the closure fails.
- The internals of `DateTime::parse` and `String::from_utf8` are parameters (`Normalise.Decoders`). Each either accepts its bytes with a result or rejects them.
- WebThing.Thing.SetCachedValue: the library's `set_cached_value` returns a result that the call site discards (`let _`), so the model returns nothing.
- WebThing.Thing.FindProperty: the library returns a reference to the property. The model returns whether the property exists, and the caller then addresses it by name.
- The decoder's stream is unbounded and blocks between polls. The model covers every finite prefix of it.
