/** The kernel's `string_choices.h`: fixed words for a boolean, the
    negated-argument macros, and the plural suffix for a count. Every
    boolean chooser has the shape `v ? yes : no`; the choosers differ only
    in their pair of words, so they are one function over a table. */
module StringChoices {

  import Arith

  /** The boolean choosers of the header, one per `str_X_Y` function. */
  datatype Chooser =
    | EnableDisable
    | EnabledDisabled
    | HiLo
    | HighLow
    | ReadWrite
    | OnOff
    | YesNo
    | UpDown

  /** The word for true and the word for false of each chooser. */
  function Words(c: Chooser): (string, string) {
    match c
    case EnableDisable => ("enable", "disable")
    case EnabledDisabled => ("enabled", "disabled")
    case HiLo => ("hi", "lo")
    case HighLow => ("high", "low")
    case ReadWrite => ("read", "write")
    case OnOff => ("on", "off")
    case YesNo => ("yes", "no")
    case UpDown => ("up", "down")
  }

  /** `str_X_Y(v)`: the chooser's first word for true, its second for
      false. The two words always differ, so each word names exactly one
      answer. */
  function Str(c: Chooser, v: bool): (s: string)
    ensures s == Words(c).0 <==> v
    ensures s == Words(c).1 <==> !v
  {
    if v then Words(c).0 else Words(c).1
  }

  /** `str_lo_hi(v)`: `str_hi_lo(!v)`, so true reads "lo". */
  function StrLoHi(v: bool): (s: string)
    ensures s == "lo" <==> v
    ensures s == "hi" <==> !v
  {
    Str(HiLo, !v)
  }

  /** `str_low_high(v)`: `str_high_low(!v)`, so true reads "low". */
  function StrLowHigh(v: bool): (s: string)
    ensures s == "low" <==> v
    ensures s == "high" <==> !v
  {
    Str(HighLow, !v)
  }

  /** `str_write_read(v)`: `str_read_write(!v)`, so true reads "write". */
  function StrWriteRead(v: bool): (s: string)
    ensures s == "write" <==> v
    ensures s == "read" <==> !v
  {
    Str(ReadWrite, !v)
  }

  /** `str_plural(num)`: the empty suffix for exactly one, "s" for every
      other count, zero included. */
  function StrPlural(num: nat): (s: string)
    requires num <= Arith.SizeMax
    ensures s == "" <==> num == 1
    ensures s != "" ==> s == "s"
  {
    if num == 1 then "" else "s"
  }

  /** What a string says when read as a chooser's word. */
  datatype Reading = Unknown | Means(value: bool)

  /** Reading a chooser's word back: the answer it stands for, if any. */
  function Unchoose(c: Chooser, s: string): (r: Reading)
    ensures r == Means(true) <==> s == Words(c).0
    ensures r == Means(false) <==> s == Words(c).1
    ensures r == Unknown <==> s != Words(c).0 && s != Words(c).1
  {
    if s == Words(c).0 then Means(true) else if s == Words(c).1 then Means(false) else Unknown
  }

  /** No chooser loses information: reading its word back gives the
      boolean, so different arguments give different words. */
  lemma ChooseRoundTrip(c: Chooser, v: bool, w: bool)
    ensures Unchoose(c, Str(c, v)) == Means(v)
    ensures Str(c, v) == Str(c, w) ==> v == w
  {
  }

  /** Each negated macro is its base chooser with the answers swapped: it
      never agrees with the base chooser on the same argument. */
  lemma NegatedMacrosSwap(v: bool)
    ensures StrLoHi(v) == Str(HiLo, !v) && StrLoHi(v) != Str(HiLo, v)
    ensures StrLowHigh(v) == Str(HighLow, !v) && StrLowHigh(v) != Str(HighLow, v)
    ensures StrWriteRead(v) == Str(ReadWrite, !v) && StrWriteRead(v) != Str(ReadWrite, v)
  {
  }
}
