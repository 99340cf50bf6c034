/**
 * The reading adapter: every decoded reading passes through a fixed table
 * that turns the octet string at the clock code into a date-time and the
 * octet strings at the two identification codes into text.
 */
module Normalise {
  import opened Wrappers
  import opened Obis
  import opened Cosem

  /**
   * The two library decoders the conversions call. `parseDateTime` returns
   * the unconsumed input and the date-time on success; `fromUtf8` the text.
   * Both are partial: `None` is a malformed input.
   */
  datatype Decoders = Decoders(
    parseDateTime: seq<bv8> -> Option<(seq<bv8>, CosemDateTime)>,
    fromUtf8: seq<bv8> -> Option<string>)

  /** A failed conversion; the adapter unwraps it, so it is a panic. */
  datatype ConversionError = MalformedDateTime(bytes: seq<bv8>) | InvalidUtf8(bytes: seq<bv8>)

  /** The date-time conversion closure: only an octet string is parsed. */
  function ConvertDateTime(dec: Decoders, value: Data): (r: Result<Data, ConversionError>)
    ensures !value.OctetString? ==> r == Ok(value)
    ensures value.OctetString? ==> (r.Err? <==> dec.parseDateTime(value.bytes).None?)
    ensures r.Ok? && value.OctetString? ==> r.value == DateTime(dec.parseDateTime(value.bytes).value.1)
    ensures r.Ok? ==> !r.value.OctetString?
  {
    match value
    case OctetString(bytes) =>
      (match dec.parseDateTime(bytes)
       case Some(parsed) => Ok(DateTime(parsed.1))
       case None => Err(MalformedDateTime(bytes)))
    case _ => Ok(value)
  }

  /** The text conversion closure: only an octet string is decoded as UTF-8. */
  function ConvertString(dec: Decoders, value: Data): (r: Result<Data, ConversionError>)
    ensures !value.OctetString? ==> r == Ok(value)
    ensures value.OctetString? ==> (r.Err? <==> dec.fromUtf8(value.bytes).None?)
    ensures r.Ok? && value.OctetString? ==> r.value == Utf8String(dec.fromUtf8(value.bytes).value)
    ensures r.Ok? ==> !r.value.OctetString?
  {
    match value
    case OctetString(bytes) =>
      (match dec.fromUtf8(bytes)
       case Some(text) => Ok(Utf8String(text))
       case None => Err(InvalidUtf8(bytes)))
    case _ => Ok(value)
  }

  /**
   * `convert` on a reading: the register at `code` has its value replaced by
   * `f` of it; every other register, and the order, is left alone. A failing
   * `f` fails the whole reading.
   */
  function Convert(reading: Reading, code: ObisCode, f: Data -> Result<Data, ConversionError>)
    : (r: Result<Reading, ConversionError>)
    ensures r.Err? <==> exists i :: 0 <= i < |reading| && reading[i].code == code && f(reading[i].register.value).Err?
    ensures r.Ok? ==> |r.value| == |reading|
    ensures r.Ok? ==> forall i :: 0 <= i < |reading| ==>
      && r.value[i].code == reading[i].code
      && r.value[i].register.unit == reading[i].register.unit
      && (reading[i].code == code ==> f(reading[i].register.value) == Ok(r.value[i].register.value))
      && (reading[i].code != code ==> r.value[i].register == reading[i].register)
  {
    if reading == [] then Ok([])
    else
      var e := reading[0];
      var head :- if e.code == code then f(e.register.value) else Ok(e.register.value);
      var tail :- Convert(reading[1..], code, f);
      assert forall i :: 1 <= i < |reading| ==> reading[i] == reading[1..][i - 1];
      Ok([Entry(e.code, Register(head, e.register.unit))] + tail)
  }

  /** The adapter's per-reading conversion: the three table entries, in source order. */
  function Normalize(dec: Decoders, obis: Reading): (r: Result<Reading, ConversionError>)
  {
    var withClock :- Convert(obis, Clock, v => ConvertDateTime(dec, v));
    var withName :- Convert(withClock, DeviceName, v => ConvertString(dec, v));
    Convert(withName, SerialNumber, v => ConvertString(dec, v))
  }

  /** The conversion table as a reference: what each code is converted to. */
  datatype Target = ToDateTime | ToText

  function TargetOf(code: ObisCode): (t: Option<Target>)
    ensures t == Some(ToDateTime) <==> code == Clock
    ensures t == Some(ToText) <==> code == DeviceName || code == SerialNumber
  {
    if code == Clock then Some(ToDateTime)
    else if code == DeviceName || code == SerialNumber then Some(ToText)
    else None
  }

  /** The table applied to one value. */
  function NormalizeValue(dec: Decoders, code: ObisCode, value: Data): (r: Result<Data, ConversionError>)
    ensures TargetOf(code).None? ==> r == Ok(value)
    ensures !value.OctetString? ==> r == Ok(value)
    ensures r.Ok? && TargetOf(code).Some? ==> !r.value.OctetString?
  {
    match TargetOf(code)
    case None => Ok(value)
    case Some(ToDateTime) => ConvertDateTime(dec, value)
    case Some(ToText) => ConvertString(dec, value)
  }

  /** Every entry of a reading normalises successfully. */
  ghost predicate AllConvertible(dec: Decoders, r: Reading) {
    forall i :: 0 <= i < |r| ==> NormalizeValue(dec, r[i].code, r[i].register.value).Ok?
  }

  /** `out` is `r` with each value replaced by its table conversion. */
  ghost predicate NormalizedFrom(dec: Decoders, r: Reading, out: Reading) {
    && |out| == |r|
    && forall i :: 0 <= i < |r| ==>
      && out[i].code == r[i].code
      && out[i].register.unit == r[i].register.unit
      && NormalizeValue(dec, r[i].code, r[i].register.value) == Ok(out[i].register.value)
  }

  /**
   * The three successive conversions agree with the table applied entry by
   * entry: the reading fails exactly when some entry's conversion fails, and
   * otherwise every entry is converted in place, codes and order kept.
   */
  lemma NormalizeMatchesTable(dec: Decoders, r: Reading)
    ensures Normalize(dec, r).Ok? <==> AllConvertible(dec, r)
    ensures Normalize(dec, r).Ok? ==> NormalizedFrom(dec, r, Normalize(dec, r).value)
  {
    var fd := v => ConvertDateTime(dec, v);
    var fs := v => ConvertString(dec, v);
    var r1 := Convert(r, Clock, fd);
    if r1.Err? {
      var i :| 0 <= i < |r| && r[i].code == Clock && fd(r[i].register.value).Err?;
      assert !NormalizeValue(dec, r[i].code, r[i].register.value).Ok?;
      return;
    }
    var r2 := Convert(r1.value, DeviceName, fs);
    if r2.Err? {
      var i :| 0 <= i < |r1.value| && r1.value[i].code == DeviceName && fs(r1.value[i].register.value).Err?;
      assert !NormalizeValue(dec, r[i].code, r[i].register.value).Ok?;
      return;
    }
    var r3 := Convert(r2.value, SerialNumber, fs);
    if r3.Err? {
      var i :| 0 <= i < |r2.value| && r2.value[i].code == SerialNumber && fs(r2.value[i].register.value).Err?;
      assert !NormalizeValue(dec, r[i].code, r[i].register.value).Ok?;
      return;
    }
    forall i | 0 <= i < |r|
      ensures r3.value[i].code == r[i].code
      ensures r3.value[i].register.unit == r[i].register.unit
      ensures NormalizeValue(dec, r[i].code, r[i].register.value) == Ok(r3.value[i].register.value)
    {
    }
  }

  /** Normalisation touches only octet strings and only the three table codes. */
  lemma NormalizeOnlyTouchesTable(dec: Decoders, r: Reading, i: nat)
    requires Normalize(dec, r).Ok? && i < |r|
    requires !r[i].register.value.OctetString? || TargetOf(r[i].code).None?
    ensures |Normalize(dec, r).value| == |r| && Normalize(dec, r).value[i] == r[i]
  {
    NormalizeMatchesTable(dec, r);
  }

  /** Re-normalising a normalised reading changes nothing. */
  lemma NormalizeIdempotent(dec: Decoders, r: Reading)
    requires Normalize(dec, r).Ok?
    ensures Normalize(dec, Normalize(dec, r).value) == Normalize(dec, r)
  {
    var out := Normalize(dec, r).value;
    NormalizeMatchesTable(dec, r);
    NormalizeMatchesTable(dec, out);
    var again := Normalize(dec, out).value;
    assert |again| == |out|;
    forall i | 0 <= i < |out| ensures again[i] == out[i] {
      assert NormalizeValue(dec, out[i].code, out[i].register.value) == Ok(out[i].register.value);
    }
    assert again == out;
  }

  /** What the loop gets when it pulls one element from the adapted stream. */
  datatype Pulled = Yielded(item: Result<Reading, DecodeError>) | Panicked(error: ConversionError)

  /** The adapter closure: a reading is normalised, a decode error passes through. */
  function Adapt(dec: Decoders, item: Result<Reading, DecodeError>): (p: Pulled)
    ensures item.Err? ==> p == Yielded(item)
    ensures item.Ok? ==> (p.Panicked? <==> !AllConvertible(dec, item.value))
    ensures p.Yielded? && item.Ok? ==> p.item.Ok? && NormalizedFrom(dec, item.value, p.item.value)
  {
    match item
    case Err(_) => Yielded(item)
    case Ok(obis) =>
      NormalizeMatchesTable(dec, obis);
      match Normalize(dec, obis)
      case Ok(converted) => Yielded(Ok(converted))
      case Err(e) => Panicked(e)
  }
}
