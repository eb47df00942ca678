/**
 * The CNIC input hook (signaid-frontend/src/hooks/useCnicInput.ts): whatever
 * is typed is reduced to its first 13 digits and shown as `12345-6789012-3`;
 * the field carries an error while it holds some but not all 13 digits.
 */
module CnicInput {
  import opened JsString

  /** A CNIC has this many digits. */
  const CnicDigits: nat := 13

  const FormatError: string := "CNIC must be 13 digits (xxxxx-xxxxxxx-x)"

  /** `s.replace(/\D/g, '')`: the digits of `s`, in order. */
  function DigitsOnly(s: string): (r: string)
    ensures |r| <= |s|
    ensures forall i :: 0 <= i < |r| ==> IsDigit(r[i])
  {
    FilterSatisfies(s, IsDigit);
    Filter(s, IsDigit)
  }

  /** `.slice(0, 13)` of the digits: the digits the field keeps. */
  function Kept(input: string): (r: string)
    ensures |r| <= CnicDigits
    ensures forall i :: 0 <= i < |r| ==> IsDigit(r[i])
    ensures |r| <= |DigitsOnly(input)| && r == DigitsOnly(input)[..|r|]
    ensures |r| < CnicDigits ==> r == DigitsOnly(input)
  {
    var d := DigitsOnly(input);
    if |d| <= CnicDigits then d else d[..CnicDigits]
  }

  /** The hyphenated layout of at most 13 kept digits. */
  function Layout(t: string): string
    requires |t| <= CnicDigits
  {
    if |t| <= 5 then t
    else if |t| <= 12 then t[..5] + "-" + t[5..]
    else t[..5] + "-" + t[5..12] + "-" + t[12..]
  }

  /** The value the field shows after `input` is typed into it. */
  function Format(input: string): (r: string)
    ensures |r| <= 15
    ensures forall i :: 0 <= i < |r| ==> IsDigit(r[i]) || r[i] == '-'
  {
    Layout(Kept(input))
  }

  /** The error the field carries while it shows `formatted`. */
  function ErrorFor(formatted: string): Option<string> {
    if 0 < |formatted| < 15 then Some(FormatError) else None
  }

  lemma DigitsOfDigits(t: string)
    requires forall i :: 0 <= i < |t| ==> IsDigit(t[i])
    ensures DigitsOnly(t) == t
  {
    FilterAll(t, IsDigit);
  }

  /** A hyphen between two pieces contributes no digit. */
  lemma DigitsAroundHyphen(a: string, b: string)
    ensures DigitsOnly(a + "-" + b) == DigitsOnly(a) + DigitsOnly(b)
  {
    FilterConcat(a + "-", b, IsDigit);
    FilterConcat(a, "-", IsDigit);
    FilterNone("-", IsDigit);
  }

  /**
   * Round trip: the raw value (`getRawValue`) of the formatted value is
   * exactly the digits kept from the input.
   */
  lemma RawValueRoundTrip(input: string)
    ensures DigitsOnly(Format(input)) == Kept(input)
  {
    var t := Kept(input);
    if |t| <= 5 {
      DigitsOfDigits(t);
    } else if |t| <= 12 {
      DigitsAroundHyphen(t[..5], t[5..]);
      DigitsOfDigits(t[..5]);
      DigitsOfDigits(t[5..]);
      assert t[..5] + t[5..] == t;
    } else {
      DigitsAroundHyphen(t[..5] + "-" + t[5..12], t[12..]);
      DigitsAroundHyphen(t[..5], t[5..12]);
      DigitsOfDigits(t[..5]);
      DigitsOfDigits(t[5..12]);
      DigitsOfDigits(t[12..]);
      assert t[..5] + t[5..12] + t[12..] == t;
    }
  }

  /**
   * Layout of the formatted value for n kept digits: a hyphen after the
   * fifth digit once there are more than five, a second one after the
   * twelfth once there are thirteen, and no other hyphen.
   */
  lemma FormatLayout(input: string)
    ensures var n, r := |Kept(input)|, Format(input);
      && |r| == n + (if n > 5 then 1 else 0) + (if n == CnicDigits then 1 else 0)
      && forall i :: 0 <= i < |r| ==> (r[i] == '-' <==> (i == 5 && n > 5) || (i == 13 && n == CnicDigits))
  {
    LayoutHyphens(Kept(input));
  }

  /** Where `Layout` puts its hyphens among the digits. */
  lemma LayoutHyphens(t: string)
    requires |t| <= CnicDigits
    requires forall i :: 0 <= i < |t| ==> IsDigit(t[i])
    ensures var n, r := |t|, Layout(t);
      && |r| == n + (if n > 5 then 1 else 0) + (if n == CnicDigits then 1 else 0)
      && forall i :: 0 <= i < |r| ==> (r[i] == '-' <==> (i == 5 && n > 5) || (i == 13 && n == CnicDigits))
  {
    var r := Layout(t);
    if 5 < |t| <= 12 {
      assert forall i :: 0 <= i < |r| ==> r[i] == if i < 5 then t[i] else if i == 5 then '-' else t[i - 1];
    } else if |t| == CnicDigits {
      assert forall i :: 0 <= i < |r| ==>
        r[i] == if i < 5 then t[i] else if i == 5 then '-' else if i < 13 then t[i - 1] else if i == 13 then '-' else t[i - 2];
    }
  }

  /** Typing the formatted value back into the field leaves it unchanged. */
  lemma FormatIdempotent(input: string)
    ensures Format(Format(input)) == Format(input)
  {
    RawValueRoundTrip(input);
  }

  /** The error is set exactly while the field holds one to twelve digits. */
  lemma ErrorRule(input: string)
    ensures ErrorFor(Format(input)).Some? <==> 1 <= |Kept(input)| <= 12
    ensures ErrorFor(Format(input)).Some? ==> ErrorFor(Format(input)).value == FormatError
  {
    FormatLayout(input);
  }

  /**
   * The field is valid (13 raw digits) exactly when all 13 digits were
   * kept, exactly when the value is 15 characters long, and exactly when
   * the field is non-empty and carries no error.
   */
  lemma ValidIffComplete(input: string)
    ensures |DigitsOnly(Format(input))| == CnicDigits <==> |Kept(input)| == CnicDigits
    ensures |Kept(input)| == CnicDigits <==> |Format(input)| == 15
    ensures |Kept(input)| == CnicDigits <==> Format(input) != "" && ErrorFor(Format(input)).None?
  {
    RawValueRoundTrip(input);
    FormatLayout(input);
  }

  /** The state of one `useCnicInput` hook: its `value` and `error` cells. */
  class CnicField {
    var value: string
    var error: Option<string>

    constructor (initialValue: string)
      ensures value == initialValue && error == None
    {
      value := initialValue;
      error := None;
    }

    /** `handleChange`: the field is re-formatted from whatever was typed. */
    method HandleChange(input: string)
      modifies this
      ensures value == Format(input)
      ensures error == ErrorFor(value)
      ensures GetRawValue() == Kept(input)
      ensures IsValid() <==> |Kept(input)| == CnicDigits
    {
      var digitsOnly := DigitsOnly(input);
      var truncated := if |digitsOnly| <= CnicDigits then digitsOnly else digitsOnly[..CnicDigits];
      var formatted := "";
      if |truncated| > 0 {
        formatted := truncated[..if |truncated| < 5 then |truncated| else 5];
        if |truncated| > 5 {
          formatted := formatted + "-" + truncated[5..if |truncated| < 12 then |truncated| else 12];
          if |truncated| > 12 {
            formatted := formatted + "-" + truncated[12..];
          }
        }
      }
      value := formatted;
      if |formatted| > 0 && |formatted| < 15 {
        error := Some(FormatError);
      } else {
        error := None;
      }
      RawValueRoundTrip(input);
    }

    /** `setValue`, exposed by the hook. */
    method SetValue(v: string)
      modifies this`value
      ensures value == v
    {
      value := v;
    }

    /** `setError`, exposed by the hook. */
    method SetError(e: Option<string>)
      modifies this`error
      ensures error == e
    {
      error := e;
    }

    /** `getRawValue`: the digits of the value. */
    function GetRawValue(): (r: string)
      reads this
      ensures |r| <= |value|
      ensures forall i :: 0 <= i < |r| ==> IsDigit(r[i])
    {
      DigitsOnly(value)
    }

    /**
     * `isValid`: the value holds exactly 13 digits. A valid value is at least
     * 13 characters long, and a value as the field displays it is valid
     * exactly when it is complete (15 characters).
     */
    predicate IsValid()
      reads this
      ensures IsValid() ==> |value| >= CnicDigits
      ensures value == Format(value) ==> (IsValid() <==> |value| == 15)
    {
      ValidIffComplete(value);
      |GetRawValue()| == CnicDigits
    }
  }
}
