/** The date strings of the cash-flow datasets. A movement's `fecha` is kept
    as the text it arrived with, "DD/MM/YY" or "DD/MM/YYYY", and is ordered
    through an auxiliary key that puts the year first, then the month, then
    the day. */
module DateStrings {
  import opened Wrappers
  import opened JsStrings

  /** The pattern `^\d{2}\/\d{2}\/\d{2}(\d{2})?$`: eight or ten characters,
      slashes at positions 2 and 5 and ASCII digits everywhere else. */
  predicate IsFechaShape(s: string) {
    && (|s| == 8 || |s| == 10)
    && s[2] == '/' && s[5] == '/'
    && forall i :: 0 <= i < |s| && i != 2 && i != 5 ==> IsAsciiDigit(s[i])
  }

  /** Day, month and year parts of a date string: two, two, and two or four
      digits. */
  predicate IsFechaParts(dd: string, mm: string, yy: string) {
    && |dd| == 2 && |mm| == 2 && (|yy| == 2 || |yy| == 4)
    && AllDigits(dd) && AllDigits(mm) && AllDigits(yy)
  }

  /** The date string with the given parts. */
  function Fecha(dd: string, mm: string, yy: string): string {
    dd + "/" + mm + "/" + yy
  }

  /** A string has the pattern's shape exactly when it is built from valid
      parts. */
  lemma FechaShapeParts(s: string)
    ensures IsFechaShape(s) <==> exists dd, mm, yy :: IsFechaParts(dd, mm, yy) && s == Fecha(dd, mm, yy)
  {
    if IsFechaShape(s) {
      FechaSplit(s);
    }
    if exists dd, mm, yy :: IsFechaParts(dd, mm, yy) && s == Fecha(dd, mm, yy) {
      var dd, mm, yy :| IsFechaParts(dd, mm, yy) && s == Fecha(dd, mm, yy);
      FechaOfParts(dd, mm, yy);
    }
  }

  /** A string of the pattern's shape is its own parts joined by slashes. */
  lemma FechaSplit(s: string)
    requires IsFechaShape(s)
    ensures IsFechaParts(s[..2], s[3..5], s[6..]) && s == Fecha(s[..2], s[3..5], s[6..])
  {
    assert s == s[..2] + "/" + s[3..5] + "/" + s[6..];
  }

  /** Valid parts joined by slashes have the pattern's shape, and the parts
      can be read back at their fixed positions. */
  lemma FechaOfParts(dd: string, mm: string, yy: string)
    requires IsFechaParts(dd, mm, yy)
    ensures var s := Fecha(dd, mm, yy);
            IsFechaShape(s) && s[..2] == dd && s[3..5] == mm && s[6..] == yy
  {
    var s := Fecha(dd, mm, yy);
    assert s[..2] == dd && s[3..5] == mm && s[6..] == yy;
    forall i | 0 <= i < |s| && i != 2 && i != 5
      ensures IsAsciiDigit(s[i])
    {
      if i < 2 {
        assert s[i] == dd[i];
      } else if i < 5 {
        assert s[i] == mm[i - 3];
      } else {
        assert s[i] == yy[i - 6];
      }
    }
  }

  /** A date string has no whitespace at its ends. */
  lemma FechaIsTrimmed(dd: string, mm: string, yy: string)
    requires IsFechaParts(dd, mm, yy)
    ensures Trim(Fecha(dd, mm, yy)) == Fecha(dd, mm, yy)
  {
    var s := Fecha(dd, mm, yy);
    FechaOfParts(dd, mm, yy);
    assert IsAsciiDigit(s[0]) && IsAsciiDigit(s[|s| - 1]);
    TrimOfTrimmed(s);
  }

  /** A string of the pattern's shape has no whitespace at its ends. */
  lemma FechaShapeIsTrimmed(s: string)
    requires IsFechaShape(s)
    ensures Trim(s) == s
  {
    assert IsAsciiDigit(s[0]) && IsAsciiDigit(s[|s| - 1]);
    TrimOfTrimmed(s);
  }

  /** `isFechaString`: false for `null`/`undefined`; otherwise the trimmed
      text must be two digits, "/", two digits, "/", and two or four digits. */
  predicate IsFechaString(value: Option<string>)
    ensures IsFechaString(value) ==> value.Some? && (|Trim(value.value)| == 8 || |Trim(value.value)| == 10)
  {
    match value
    case None => false
    case Some(v) => IsFechaShape(Trim(v))
  }

  /** The check accepts exactly the strings that trim to valid parts joined
      by slashes. */
  lemma IsFechaStringParts(value: Option<string>)
    ensures IsFechaString(value) <==>
              value.Some? && exists dd, mm, yy :: IsFechaParts(dd, mm, yy) && Trim(value.value) == Fecha(dd, mm, yy)
  {
    if value.Some? {
      FechaShapeParts(Trim(value.value));
    }
  }

  /** Surrounding whitespace does not matter to the check. */
  lemma IsFechaStringIgnoresPadding(pre: string, dd: string, mm: string, yy: string, post: string)
    requires forall i :: 0 <= i < |pre| ==> IsWhitespace(pre[i])
    requires forall i :: 0 <= i < |post| ==> IsWhitespace(post[i])
    requires IsFechaParts(dd, mm, yy)
    ensures IsFechaString(Some(pre + Fecha(dd, mm, yy) + post))
  {
    var s := Fecha(dd, mm, yy);
    FechaOfParts(dd, mm, yy);
    assert IsAsciiDigit(s[0]) && IsAsciiDigit(s[|s| - 1]);
    TrimPadded(pre, s, post);
  }

  /** `toSortableKeyYY`: for a (trimmed) date string, its year digits, then the
      month, then the day; any other text comes back trimmed and unchanged.
      The year is used as written, so a two-digit year stays two digits
      (`padStart(2, "0")` never adds anything to two or four digits). */
  function ToSortableKey(fecha: string): (k: string)
    ensures IsFechaShape(Trim(fecha)) ==> AllDigits(k) && |k| == |Trim(fecha)| - 2
    ensures !IsFechaShape(Trim(fecha)) ==> k == Trim(fecha)
  {
    var s := Trim(fecha);
    if IsFechaShape(s) then FechaKeyDigits(s); s[6..] + s[3..5] + s[..2] else s
  }

  /** The key of a date string is made of its digits only. */
  lemma FechaKeyDigits(s: string)
    requires IsFechaShape(s)
    ensures AllDigits(s[6..] + s[3..5] + s[..2])
  {
    var k := s[6..] + s[3..5] + s[..2];
    var y := |s| - 6;
    forall i | 0 <= i < |k|
      ensures IsAsciiDigit(k[i])
    {
      if i < y {
        assert k[i] == s[6 + i];
      } else if i < y + 2 {
        assert k[i] == s[3 + i - y];
      } else {
        assert k[i] == s[i - y - 2];
      }
    }
  }

  /** The key of a date string is its parts reordered year, month, day. */
  lemma SortKeyOfParts(fecha: string, dd: string, mm: string, yy: string)
    requires IsFechaParts(dd, mm, yy) && Trim(fecha) == Fecha(dd, mm, yy)
    ensures ToSortableKey(fecha) == yy + mm + dd
  {
    FechaOfParts(dd, mm, yy);
  }

  /** For two dates whose years are written with the same number of digits,
      the keys compare year first, then month, then day; `DigitsOrder` turns
      each of these comparisons of equal-length digit strings into the
      comparison of the numbers they denote, so key order is chronological
      order. */
  lemma KeyOrderIsChronological(f1: string, dd1: string, mm1: string, yy1: string,
                                f2: string, dd2: string, mm2: string, yy2: string)
    requires IsFechaParts(dd1, mm1, yy1) && Trim(f1) == Fecha(dd1, mm1, yy1)
    requires IsFechaParts(dd2, mm2, yy2) && Trim(f2) == Fecha(dd2, mm2, yy2)
    requires |yy1| == |yy2|
    ensures LexLess(ToSortableKey(f1), ToSortableKey(f2))
            <==> LexLess(yy1, yy2) || (yy1 == yy2 && (LexLess(mm1, mm2) || (mm1 == mm2 && LexLess(dd1, dd2))))
  {
    SortKeyOfParts(f1, dd1, mm1, yy1);
    SortKeyOfParts(f2, dd2, mm2, yy2);
    KeyPartsOrder(yy1, mm1, dd1, yy2, mm2, dd2);
  }

  /** Keys made of parts of equal lengths compare part by part. */
  lemma KeyPartsOrder(yy1: string, mm1: string, dd1: string, yy2: string, mm2: string, dd2: string)
    requires |yy1| == |yy2| && |mm1| == |mm2|
    ensures LexLess(yy1 + mm1 + dd1, yy2 + mm2 + dd2)
            <==> LexLess(yy1, yy2) || (yy1 == yy2 && (LexLess(mm1, mm2) || (mm1 == mm2 && LexLess(dd1, dd2))))
  {
    assert yy1 + mm1 + dd1 == yy1 + (mm1 + dd1);
    assert yy2 + mm2 + dd2 == yy2 + (mm2 + dd2);
    LexLessConcat(yy1, mm1 + dd1, yy2, mm2 + dd2);
    LexLessConcat(mm1, dd1, mm2, dd2);
  }

  /** Equal keys for dates with the same year width mean the same date
      string. */
  lemma SameKeySameFecha(f1: string, dd1: string, mm1: string, yy1: string,
                         f2: string, dd2: string, mm2: string, yy2: string)
    requires IsFechaParts(dd1, mm1, yy1) && Trim(f1) == Fecha(dd1, mm1, yy1)
    requires IsFechaParts(dd2, mm2, yy2) && Trim(f2) == Fecha(dd2, mm2, yy2)
    requires |yy1| == |yy2|
    requires ToSortableKey(f1) == ToSortableKey(f2)
    ensures Trim(f1) == Trim(f2)
  {
    SortKeyOfParts(f1, dd1, mm1, yy1);
    SortKeyOfParts(f2, dd2, mm2, yy2);
    var k1, k2 := yy1 + mm1 + dd1, yy2 + mm2 + dd2;
    assert yy1 == k1[..|yy1|] && yy2 == k2[..|yy2|];
    assert mm1 == k1[|yy1|..|yy1| + 2] && mm2 == k2[|yy2|..|yy2| + 2];
    assert dd1 == k1[|yy1| + 2..] && dd2 == k2[|yy2| + 2..];
  }

  /** Mixing the two year widths breaks chronology: a date with a four-digit
      year sorts before a date with a two-digit year whenever the first digit
      of the four-digit year is the smaller one, whatever the years denote.
      So 01/01/2030 sorts before 01/01/25, the keys comparing "2030..." with
      "25...". */
  lemma MixedYearWidthsMisorder(f1: string, dd1: string, mm1: string, yy1: string,
                                f2: string, dd2: string, mm2: string, yy2: string)
    requires IsFechaParts(dd1, mm1, yy1) && Trim(f1) == Fecha(dd1, mm1, yy1) && |yy1| == 4
    requires IsFechaParts(dd2, mm2, yy2) && Trim(f2) == Fecha(dd2, mm2, yy2) && |yy2| == 2
    requires yy1[0] < yy2[0]
    ensures LexLess(ToSortableKey(f1), ToSortableKey(f2))
  {
    SortKeyOfParts(f1, dd1, mm1, yy1);
    SortKeyOfParts(f2, dd2, mm2, yy2);
    assert (yy1 + mm1 + dd1)[0] == yy1[0];
    assert (yy2 + mm2 + dd2)[0] == yy2[0];
  }
}
