/** `parseYear` of both sketches: the publication-year column of a paper row
    is read by three regular expressions tried in a fixed order. */
module YearParse {
  import opened Common
  import opened JsText

  /** `/^(\d{4})[\/-]/`: four digits at the start followed by `/` or `-`. */
  predicate LeadingYearWithSep(s: string) {
    |s| >= 5 && AllDigits(s[..4]) && (s[4] == '/' || s[4] == '-')
  }

  /** `/^(\d{4})$/`: the whole string is four digits. */
  predicate ExactYear(s: string) {
    |s| == 4 && AllDigits(s)
  }

  /** `/(19|20)\d{2}/` matches at index i. */
  predicate CenturyYearAt(s: string, i: int) {
    && 0 <= i && i + 4 <= |s|
    && ((s[i] == '1' && s[i + 1] == '9') || (s[i] == '2' && s[i + 1] == '0'))
    && IsDigit(s[i + 2]) && IsDigit(s[i + 3])
  }

  /** The leftmost match of `/(19|20)\d{2}/` at or after `from`. */
  function FindCenturyYear(s: string, from: nat): (r: Option<nat>)
    ensures r.Some? ==> from <= r.value && CenturyYearAt(s, r.value)
    ensures r.Some? ==> forall j :: from <= j < r.value ==> !CenturyYearAt(s, j)
    ensures r.None? ==> forall j :: from <= j ==> !CenturyYearAt(s, j)
    decreases |s| - from
  {
    if from + 4 > |s| then None
    else if CenturyYearAt(s, from) then Some(from)
    else FindCenturyYear(s, from + 1)
  }

  /** Value of a four-digit string, digit by digit. */
  lemma FourDigitValue(s: string)
    requires |s| == 4 && AllDigits(s)
    ensures DecimalValue(s) == 1000 * (s[0] as int - 48) + 100 * (s[1] as int - 48)
                             + 10 * (s[2] as int - 48) + (s[3] as int - 48)
  {
    var s3, s2, s1 := s[..3], s[..2], s[..1];
    assert s3[..2] == s2 && s2[..1] == s1 && s1[..0] == [];
    assert DecimalValue(s1) == s[0] as int - 48;
    assert DecimalValue(s2) == DecimalValue(s1) * 10 + (s[1] as int - 48);
    assert DecimalValue(s3) == DecimalValue(s2) * 10 + (s[2] as int - 48);
  }

  /** A match of the third pattern is four digits. */
  lemma CenturyYearDigits(s: string, i: int)
    requires CenturyYearAt(s, i)
    ensures AllDigits(s[i..i + 4])
    ensures 1900 <= DecimalValue(s[i..i + 4]) <= 2099
  {
    var w := s[i..i + 4];
    assert forall k :: 0 <= k < 4 ==> w[k] == s[i + k];
    FourDigitValue(w);
  }

  /** `parseYear` after the empty-input test and the trim. */
  function ParseTrimmed(s: string): (r: Option<int>)
  {
    if LeadingYearWithSep(s) then Some(DecimalValue(s[..4]))
    else if ExactYear(s) then Some(DecimalValue(s))
    else
      match FindCenturyYear(s, 0)
      case Some(i) =>
        CenturyYearDigits(s, i);
        Some(DecimalValue(s[i..i + 4]))
      case None => None
  }

  /** `parseYear(raw)`; None stands for NaN. */
  function ParseYear(raw: string): (r: Option<int>)
  {
    if raw == "" then None else ParseTrimmed(Trim(raw))
  }

  /** The three patterns are tried in priority order on the trimmed string;
      NaN comes only from a string none of them matches; the third pattern
      takes the leftmost match and always yields 1900..2099. */
  lemma ParseTrimmedPriority(s: string)
    ensures LeadingYearWithSep(s) ==> ParseTrimmed(s) == Some(DecimalValue(s[..4]))
    ensures !LeadingYearWithSep(s) && ExactYear(s) ==> ParseTrimmed(s) == Some(DecimalValue(s))
    ensures !LeadingYearWithSep(s) && !ExactYear(s) ==>
              (ParseTrimmed(s).None? <==> forall i :: !CenturyYearAt(s, i))
    ensures !LeadingYearWithSep(s) && !ExactYear(s) && ParseTrimmed(s).Some? ==>
              exists i :: CenturyYearAt(s, i) &&
                          (forall j :: 0 <= j < i ==> !CenturyYearAt(s, j)) &&
                          ParseTrimmed(s).value == DecimalValue(s[i..i + 4]) &&
                          1900 <= ParseTrimmed(s).value <= 2099
  {
    if !LeadingYearWithSep(s) && !ExactYear(s) {
      match FindCenturyYear(s, 0)
      case Some(i) =>
        CenturyYearDigits(s, i);
        assert ParseTrimmed(s) == Some(DecimalValue(s[i..i + 4]));
        assert CenturyYearAt(s, i) && forall j :: 0 <= j < i ==> !CenturyYearAt(s, j);
      case None =>
    }
  }

  /** Empty input is NaN; anything else is decided on its trimmed form. */
  lemma ParseYearTrims(raw: string)
    ensures raw == "" ==> ParseYear(raw).None?
    ensures raw != "" ==> ParseYear(raw) == ParseTrimmed(Trim(raw))
    ensures raw != "" && raw == Trim(raw) ==> ParseYear(raw) == ParseTrimmed(raw)
  {
  }

  /** Every parsed year has at most four digits. */
  lemma ParseYearRange(raw: string)
    ensures ParseYear(raw).Some? ==> 0 <= ParseYear(raw).value <= 9999
  {
    if raw != "" {
      var s := Trim(raw);
      if LeadingYearWithSep(s) {
        FourDigitValue(s[..4]);
      } else if ExactYear(s) {
        FourDigitValue(s);
      } else {
        match FindCenturyYear(s, 0)
        case Some(i) =>
          CenturyYearDigits(s, i);
        case None =>
      }
    }
  }

  /** A string that is already trimmed is left as it is. */
  lemma TrimNoSpace(s: string)
    requires |s| > 0 && !IsJsSpace(s[0]) && !IsJsSpace(s[|s| - 1])
    ensures Trim(s) == s
  {
    assert s[0..] == s;
  }

  /** Worked example: a year followed by a month separator. */
  lemma ParseYearSlashExample()
    ensures ParseYear("2020/03") == Some(2020)
  {
    var a := "2020/03";
    TrimNoSpace(a);
    FourDigitValue(a[..4]);
  }

  /** Worked example: a year embedded in free text. */
  lemma ParseYearEmbeddedExample()
    ensures ParseYear("circa 1998 report") == Some(1998)
  {
    var b := "circa 1998 report";
    TrimNoSpace(b);
    assert !IsDigit(b[0]) && b[..4][0] == b[0];
    assert CenturyYearAt(b, 6);
    forall j | 0 <= j < 6
      ensures !CenturyYearAt(b, j)
    {
      assert b[j] != '1' && b[j] != '2';
    }
    assert FindCenturyYear(b, 0) == Some(6);
    var w := b[6..10];
    assert w == "1998";
    FourDigitValue(w);
  }

  /** Worked example: no year at all, so the row is dropped. */
  lemma ParseYearNoYearExample()
    ensures ParseYear("unknown") == None
  {
    var c := "unknown";
    TrimNoSpace(c);
    assert '1' !in c && '2' !in c;
  }
}
