/**
 * The decoded meter data: COSEM values, registers (a value with its unit),
 * and readings (one poll of the meter: registers keyed by OBIS code).
 */
module Cosem {
  import opened Wrappers
  import opened Obis

  /** A COSEM date-time as the DLMS decoder produces it; its fields are not interpreted here. */
  datatype CosemDateTime = CosemDateTime(
    year: int, month: int, dayOfMonth: int, dayOfWeek: int,
    hour: int, minute: int, second: int, hundredths: int,
    deviation: int, clockStatus: int)

  /** The variants of decoded data this bridge distinguishes. */
  datatype Data =
    | Null
    | Boolean(flag: bool)
    | Integer(number: int)
    | OctetString(bytes: seq<bv8>)
    | Utf8String(text: string)
    | DateTime(time: CosemDateTime)

  /** A register: a value and, for measurements, its physical unit. */
  datatype Register = Register(value: Data, unit: Option<string>)

  datatype Entry = Entry(code: ObisCode, register: Register)

  /** One poll of the meter, in the decoder's iteration order. */
  type Reading = seq<Entry>

  /** A failure of the transport or the DLMS decoder for one poll. */
  datatype DecodeError = DecodeError(message: string)

  predicate DistinctCodes(r: Reading) {
    forall i, j :: 0 <= i < j < |r| ==> r[i].code != r[j].code
  }
}
