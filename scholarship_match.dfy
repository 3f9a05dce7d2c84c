/** The scholarship eligibility matcher: given an applicant (`usuario`) and a
    scholarship (`beca`), decide whether the applicant meets the
    scholarship's requirements, fails them, or has not filled in enough of
    the profile for an answer.

    The four criteria are the age ceiling, the applicant's nationality, the
    minimum academic level and the required languages. The clock is a
    parameter: `today` stands for `new Date()`, and its year for the current
    year. */
module ScholarshipMatch {
  import opened Wrappers
  import opened JsStrings
  import opened JsArrays

  // ---------------------------------------------------------------------------
  // Records
  // ---------------------------------------------------------------------------

  /** A calendar date as `getFullYear`, `getMonth` and `getDate` report it. */
  datatype Date = Date(year: int, month: int, day: int)

  /** `usuario.personalData`. A missing or empty `nationality` is "". */
  datatype PersonalData = PersonalData(birthDate: Option<Date>, nationality: string)

  /** One entry of `usuario.academicData`. A missing or empty `degree` is "";
      a missing `endYear` is None. */
  datatype AcademicEntry = AcademicEntry(degree: string, endYear: Option<int>)

  /** One entry of `usuario.languages`. None is a field that is missing or
      null, on which `toLowerCase` and `toUpperCase` throw; an empty string is
      a present field. */
  datatype LanguageEntry = LanguageEntry(language: Option<string>, level: Option<string>)

  /** A field JavaScript reads as truthy: present and not empty. */
  predicate IsFilled(o: Option<string>) {
    o.Some? && o.value != ""
  }

  /** The applicant. None stands for a field that is absent or, for the two
      lists, not an array. */
  datatype User = User(
    personalData: Option<PersonalData>,
    academicData: Option<seq<AcademicEntry>>,
    languages: Option<seq<LanguageEntry>>)

  /** One entry of `beca.requisitos.idiomasRequeridos` (`idioma`,
      `nivelIdioma`); the schema makes both optional. */
  datatype RequiredLanguage = RequiredLanguage(language: Option<string>, level: Option<string>)

  /** `beca.requisitos`. `maxAge` is `Number(edadMax)` rounded down, None
      when that is NaN: the age is a whole number, so it is above a number
      exactly when it is above that number's integer part (`AgeAboveFloor`);
      `minAcademicLevel` is "" when absent; an absent `requiredLanguages` list
      behaves as the empty one. An absent `requisitos` is the record with all
      three absent. */
  datatype Requirements = Requirements(
    maxAge: Option<int>,
    minAcademicLevel: string,
    requiredLanguages: seq<RequiredLanguage>)

  /** The scholarship: `paisPostulante` (an absent list behaves as the empty
      one) and `requisitos`. */
  datatype Scholarship = Scholarship(applicantCountries: seq<string>, requirements: Requirements)

  /** The result of `cumpleRequisitos`: `true`, `false`, the "load your profile"
      label, or the TypeError that the language check raises when a required
      entry has no `idioma` or no `nivelIdioma`. */
  datatype Outcome = Eligible | Ineligible | ProfileIncomplete | RaisesTypeError

  const LoadProfileLabel: string := "Cargar perfil para determinar si cumplís con los requisitos"

  /** The text `cumpleRequisitos` returns for each outcome that is not an
      exception. */
  function OutcomeText(o: Outcome): Option<string> {
    match o
    case Eligible => Some("true")
    case Ineligible => Some("false")
    case ProfileIncomplete => Some(LoadProfileLabel)
    case RaisesTypeError => None
  }

  // ---------------------------------------------------------------------------
  // Age
  // ---------------------------------------------------------------------------

  /** `calcularEdad`: the difference of the years, one less when today's
      month and day come before the birth month and day; 0 without a birth
      date. */
  function Age(birthDate: Option<Date>, today: Date): (age: int)
    ensures birthDate.None? ==> age == 0
    ensures birthDate.Some? ==> DateLessEq(Anniversary(birthDate.value, age), today)
                                && !DateLessEq(Anniversary(birthDate.value, age + 1), today)
  {
    match birthDate
    case None => 0
    case Some(b) =>
      var age := today.year - b.year;
      var months := today.month - b.month;
      if months < 0 || (months == 0 && today.day < b.day) then age - 1 else age
  }

  /** Chronological order of dates: year, then month, then day. */
  predicate DateLessEq(a: Date, b: Date) {
    a.year < b.year
    || (a.year == b.year && a.month < b.month)
    || (a.year == b.year && a.month == b.month && a.day <= b.day)
  }

  /** The `n`-th anniversary of a date. */
  function Anniversary(d: Date, n: int): Date {
    Date(d.year + n, d.month, d.day)
  }

  /** The age is the number of anniversaries of the birth date that have
      come: the `Age`-th has been reached and the next one has not. */
  lemma AgeIsCompletedYears(b: Date, today: Date)
    ensures DateLessEq(Anniversary(b, Age(Some(b), today)), today)
    ensures !DateLessEq(Anniversary(b, Age(Some(b), today) + 1), today)
  {
  }

  /** No other number has that property, so it determines the age. */
  lemma AgeIsUnique(b: Date, today: Date, n: int)
    requires DateLessEq(Anniversary(b, n), today)
    requires !DateLessEq(Anniversary(b, n + 1), today)
    ensures n == Age(Some(b), today)
  {
  }

  /** The comparison `edadUsuario > edadMax` of a whole age with a number is
      the comparison with the number rounded down. */
  lemma AgeAboveFloor(age: int, max: real)
    ensures age as real > max <==> age > max.Floor
  {
  }

  /** `cumpleEdadMaxima`: fails only when `edadMax` is a number and the age
      is above it. Stated through anniversaries: an applicant with a birth
      date passes iff the (maxAge+1)-th birthday has not yet come. */
  function MeetsMaxAge(u: User, s: Scholarship, today: Date): (r: bool)
    requires u.personalData.Some?
    ensures var pd := u.personalData.value;
            var max := s.requirements.maxAge;
            r <==> match (max, pd.birthDate)
                   case (None, _) => true
                   case (Some(m), None) => 0 <= m
                   case (Some(m), Some(b)) => !DateLessEq(Anniversary(b, m + 1), today)
  {
    var max := s.requirements.maxAge;
    var age := Age(u.personalData.value.birthDate, today);
    !(max.Some? && age > max.value)
  }

  // ---------------------------------------------------------------------------
  // Nationality
  // ---------------------------------------------------------------------------

  const Wildcard: string := "todos"

  /** `cumpleNacionalidad`: a missing nationality fails. Otherwise an empty
      list of countries, an entry equal to "todos" up to case, or an entry
      equal to the nationality up to case, passes. */
  function MeetsNationality(u: User, s: Scholarship): (r: bool)
    requires u.personalData.Some?
    ensures var nationality := u.personalData.value.nationality;
            var allowed := s.applicantCountries;
            r <==> nationality != "" && (allowed == [] || exists i :: IsAdmitting(allowed, i, nationality))
  {
    var lowered := ToLower(u.personalData.value.nationality);
    ToLowerEmpty(u.personalData.value.nationality);
    if lowered == "" then false
    else if s.applicantCountries == [] then true
    else
      var normalized := Map(s.applicantCountries, ToLower);
      ListedUpToCase(s.applicantCountries, u.personalData.value.nationality);
      if Wildcard in normalized then true
      else lowered in normalized
  }

  /** `includes` over the lower-cased list finds "todos" or the lower-cased
      nationality exactly when some entry admits it. */
  lemma ListedUpToCase(allowed: seq<string>, nationality: string)
    ensures (Wildcard in Map(allowed, ToLower) || ToLower(nationality) in Map(allowed, ToLower))
            <==> exists i :: IsAdmitting(allowed, i, nationality)
  {
    var lowered := ToLower(nationality);
    MapMembershipEither(allowed, ToLower, Wildcard, lowered);
    if exists i :: 0 <= i < |allowed| && (ToLower(allowed[i]) == Wildcard || ToLower(allowed[i]) == lowered) {
      var i :| 0 <= i < |allowed| && (ToLower(allowed[i]) == Wildcard || ToLower(allowed[i]) == lowered);
      assert IsAdmitting(allowed, i, nationality);
    }
    if exists i :: IsAdmitting(allowed, i, nationality) {
      var i :| IsAdmitting(allowed, i, nationality);
      assert 0 <= i < |allowed| && (ToLower(allowed[i]) == Wildcard || ToLower(allowed[i]) == lowered);
    }
  }

  /** Entry `i` of the country list is "todos" or the nationality, up to case. */
  predicate IsAdmitting(allowed: seq<string>, i: int, nationality: string) {
    0 <= i < |allowed| && (ToLower(allowed[i]) == Wildcard || ToLower(allowed[i]) == ToLower(nationality))
  }

  /** The wildcard admits every applicant who has a nationality. */
  lemma WildcardAdmitsAll(u: User, s: Scholarship, i: nat)
    requires u.personalData.Some? && u.personalData.value.nationality != ""
    requires i < |s.applicantCountries| && ToLower(s.applicantCountries[i]) == Wildcard
    ensures MeetsNationality(u, s)
  {
  }

  /** Without a list of countries the criterion only asks for a nationality. */
  lemma NoCountryListAdmitsAll(u: User, s: Scholarship)
    requires u.personalData.Some?
    requires s.applicantCountries == []
    ensures MeetsNationality(u, s) <==> u.personalData.value.nationality != ""
  {
  }

  /** Two nationalities spelled the same up to case are treated alike. */
  lemma NationalityIgnoresCase(u1: User, u2: User, s: Scholarship)
    requires u1.personalData.Some? && u2.personalData.Some?
    requires ToLower(u1.personalData.value.nationality) == ToLower(u2.personalData.value.nationality)
    ensures MeetsNationality(u1, s) == MeetsNationality(u2, s)
  {
    ToLowerEmpty(u1.personalData.value.nationality);
    ToLowerEmpty(u2.personalData.value.nationality);
  }

  // ---------------------------------------------------------------------------
  // Academic level
  // ---------------------------------------------------------------------------

  /** The academic scale, lowest first, with the keys of the code's
      `niveles` table. */
  const AcademicLevels: seq<string> :=
    ["Secundario", "Grado", "Posgrado", "Maestría", "Doctorado", "Posdoctorado"]

  const LowestLevel: string := "Secundario"

  /** `niveles[level]`: the position of `level` in the scale, or None
      (`undefined`) for a string outside it. */
  function AcademicRank(level: string): (r: Option<nat>)
    ensures r.Some? ==> r.value < |AcademicLevels| && AcademicLevels[r.value] == level
    ensures r.None? ==> level !in AcademicLevels
  {
    var i := IndexOf(AcademicLevels, level);
    if i < 0 then None else Some(i)
  }

  /** Every scale entry has its own position as its rank, so the table is a
      strict order Secundario < Grado < Posgrado < Maestría < Doctorado <
      Posdoctorado. */
  lemma AcademicRankOfScale(i: nat)
    requires i < |AcademicLevels|
    ensures AcademicRank(AcademicLevels[i]) == Some(i)
  {
    assert AcademicRank(AcademicLevels[i]).Some?;
  }

  /** `niveles[a] > niveles[b]` for a rank table `rank`: false whenever
      either side is `undefined`. */
  predicate RanksAbove(rank: string -> Option<nat>, a: string, b: string) {
    rank(a).Some? && rank(b).Some? && rank(a).value > rank(b).value
  }

  /** An academic entry counts as completed when its `endYear` is truthy and
      before the current year. */
  predicate IsCompleted(e: AcademicEntry, currentYear: int) {
    e.endYear.Some? && e.endYear.value != 0 && e.endYear.value < currentYear
  }

  /** A completed entry has an end year, and stays completed in every later
      year; an entry ending this year is not completed yet. */
  lemma CompletedStaysCompleted(e: AcademicEntry, currentYear: int, later: int)
    requires IsCompleted(e, currentYear) && currentYear <= later
    ensures e.endYear.Some? && IsCompleted(e, later)
    ensures !IsCompleted(e.(endYear := Some(later)), later)
  {
  }

  /** The `reduce` of `obtenerNivelAcademicoMaximo` over the rank table
      `rank`, from accumulator `acc`: it moves to an entry's degree only when
      that degree ranks above the current one. The result is the accumulator
      or one of the degrees. */
  function KeepHighest(rank: string -> Option<nat>, acc: string, rest: seq<AcademicEntry>): (r: string)
    ensures r == acc || exists i :: 0 <= i < |rest| && rest[i].degree == r
    decreases |rest|
  {
    if rest == [] then acc
    else
      var next := if RanksAbove(rank, rest[0].degree, acc) then rest[0].degree else acc;
      var r := KeepHighest(rank, next, rest[1..]);
      assert forall i :: 1 <= i < |rest| ==> rest[i] == rest[1..][i - 1];
      r
  }

  /** An unranked accumulator is never replaced: `undefined` compares false. */
  lemma {:induction false} KeepHighestUnranked(rank: string -> Option<nat>, acc: string, rest: seq<AcademicEntry>)
    requires rank(acc).None?
    ensures KeepHighest(rank, acc, rest) == acc
    decreases |rest|
  {
    if rest != [] {
      KeepHighestUnranked(rank, acc, rest[1..]);
    }
  }

  /** A ranked accumulator ends as a ranked degree at least as high as the
      accumulator and as every ranked degree of the list. */
  lemma {:induction false} KeepHighestRanked(rank: string -> Option<nat>, acc: string, rest: seq<AcademicEntry>)
    requires rank(acc).Some?
    ensures var r := KeepHighest(rank, acc, rest);
            rank(r).Some? && rank(r).value >= rank(acc).value
            && forall i :: 0 <= i < |rest| && rank(rest[i].degree).Some? ==>
                             rank(rest[i].degree).value <= rank(r).value
    decreases |rest|
  {
    if rest != [] {
      var next := if RanksAbove(rank, rest[0].degree, acc) then rest[0].degree else acc;
      KeepHighestRanked(rank, next, rest[1..]);
      assert forall i :: 1 <= i < |rest| ==> rest[i] == rest[1..][i - 1];
    }
  }

  /** `obtenerNivelAcademicoMaximo`: None (`null`) when there is no academic
      data or no completed entry; otherwise the degree of a completed entry,
      chosen by `KeepHighest` from the first completed one. */
  function HighestCompletedDegree(academic: Option<seq<AcademicEntry>>, currentYear: int): (r: Option<string>)
    ensures r.None? <==> academic.None?
                         || forall i :: 0 <= i < |academic.value| ==> !IsCompleted(academic.value[i], currentYear)
    ensures r.Some? ==> exists i :: 0 <= i < |academic.value|
                                    && IsCompleted(academic.value[i], currentYear)
                                    && academic.value[i].degree == r.value
  {
    if academic.None? || |academic.value| == 0 then None
    else
      var entries := academic.value;
      var completed := Filter(entries, e => IsCompleted(e, currentYear));
      if |completed| == 0 then
        NoneCompleted(entries, currentYear);
        None
      else
        HighestIsCompleted(entries, currentYear);
        Some(KeepHighest(AcademicRank, completed[0].degree, completed[1..]))
  }

  lemma HighestIsCompleted(entries: seq<AcademicEntry>, currentYear: int)
    requires |Filter(entries, e => IsCompleted(e, currentYear))| > 0
    ensures var c := Filter(entries, e => IsCompleted(e, currentYear));
            var r := KeepHighest(AcademicRank, c[0].degree, c[1..]);
            exists i :: 0 <= i < |entries| && IsCompleted(entries[i], currentYear) && entries[i].degree == r
  {
    var p := e => IsCompleted(e, currentYear);
    var c := Filter(entries, p);
    var r := KeepHighest(AcademicRank, c[0].degree, c[1..]);
    var k := 0;
    if r != c[0].degree {
      var i :| 0 <= i < |c[1..]| && c[1..][i].degree == r;
      k := i + 1;
    }
    assert c[k].degree == r && p(c[k]);
    FilterMembership(entries, p, c[k]);
  }

  lemma NoneCompleted(entries: seq<AcademicEntry>, currentYear: int)
    requires |Filter(entries, e => IsCompleted(e, currentYear))| == 0
    ensures forall i :: 0 <= i < |entries| ==> !IsCompleted(entries[i], currentYear)
  {
    forall i | 0 <= i < |entries|
      ensures !IsCompleted(entries[i], currentYear)
    {
      FilterMembership(entries, e => IsCompleted(e, currentYear), entries[i]);
    }
  }

  /** When the first completed entry has a ranked degree, the result is ranked
      and no completed entry ranks above it: it is the highest completed
      degree. */
  lemma HighestIsMaximum(entries: seq<AcademicEntry>, currentYear: int, k: nat)
    requires k < |entries| && IsCompleted(entries[k], currentYear)
    requires var c := Filter(entries, e => IsCompleted(e, currentYear));
             |c| > 0 && AcademicRank(c[0].degree).Some?
    requires AcademicRank(entries[k].degree).Some?
    ensures var r := HighestCompletedDegree(Some(entries), currentYear);
            r.Some? && AcademicRank(r.value).Some?
            && AcademicRank(entries[k].degree).value <= AcademicRank(r.value).value
  {
    var p := e => IsCompleted(e, currentYear);
    var c := Filter(entries, p);
    FilterMembership(entries, p, entries[k]);
    var j :| 0 <= j < |c| && c[j] == entries[k];
    KeepHighestRanked(AcademicRank, c[0].degree, c[1..]);
    if j > 0 {
      assert c[1..][j - 1] == entries[k];
    }
  }

  /** When the first completed entry has an unranked degree, that degree is
      the result, whatever follows it. */
  lemma HighestIsFirstWhenUnranked(entries: seq<AcademicEntry>, currentYear: int)
    requires var c := Filter(entries, e => IsCompleted(e, currentYear));
             |c| > 0 && AcademicRank(c[0].degree).None?
    ensures var c := Filter(entries, e => IsCompleted(e, currentYear));
            HighestCompletedDegree(Some(entries), currentYear) == Some(c[0].degree)
  {
    var c := Filter(entries, e => IsCompleted(e, currentYear));
    KeepHighestUnranked(AcademicRank, c[0].degree, c[1..]);
  }

  /** The applicant's level for `cumpleNivelAcademico`: the highest completed
      degree, or "Secundario" when there is none. */
  function ApplicantLevel(u: User, currentYear: int): (level: string)
    ensures var h := HighestCompletedDegree(u.academicData, currentYear);
            && (h.Some? && h.value != "" ==> level == h.value)
            && (h.None? || h == Some("") ==> level == LowestLevel)
    ensures level == LowestLevel
            || exists i :: u.academicData.Some? && 0 <= i < |u.academicData.value| && IsCompleted(u.academicData.value[i], currentYear)
                           && u.academicData.value[i].degree == level
  {
    var h := HighestCompletedDegree(u.academicData, currentYear);
    if h.Some? && h.value != "" then h.value else LowestLevel
  }

  /** `niveles[user] < niveles[min]` read the other way: fails only when both
      levels are on the scale and the applicant's ranks lower. */
  predicate LevelSuffices(level: string, min: string) {
    var ru, rm := AcademicRank(level), AcademicRank(min);
    !(ru.Some? && rm.Some? && ru.value < rm.value)
  }

  /** `cumpleNivelAcademico`: passes without a minimum; otherwise the
      applicant's level must not rank below it. */
  function MeetsAcademicLevel(u: User, s: Scholarship, currentYear: int): (r: bool)
    ensures var min := s.requirements.minAcademicLevel;
            !r <==> min != "" && exists i, j :: 0 <= i < j < |AcademicLevels|
                                   && ApplicantLevel(u, currentYear) == AcademicLevels[i]
                                   && min == AcademicLevels[j]
  {
    var min := s.requirements.minAcademicLevel;
    if min == "" then true
    else
      var level := ApplicantLevel(u, currentYear);
      LevelSufficesOnScale(level, min);
      LevelSuffices(level, min)
  }

  /** `LevelSuffices` fails exactly for two scale entries in the wrong order. */
  lemma LevelSufficesOnScale(level: string, min: string)
    ensures !LevelSuffices(level, min) <==> exists i, j :: 0 <= i < j < |AcademicLevels|
                                                         && level == AcademicLevels[i] && min == AcademicLevels[j]
  {
    if !LevelSuffices(level, min) {
      assert AcademicLevels[AcademicRank(level).value] == level;
    } else if exists i, j :: 0 <= i < j < |AcademicLevels| && level == AcademicLevels[i] && min == AcademicLevels[j] {
      var i, j :| 0 <= i < j < |AcademicLevels| && level == AcademicLevels[i] && min == AcademicLevels[j];
      AcademicRankOfScale(i);
      AcademicRankOfScale(j);
    }
  }

  /** A level that is not on the scale, on either side, never fails. */
  lemma UnrankedNeverFails(level: string, min: string)
    requires level !in AcademicLevels || min !in AcademicLevels
    ensures LevelSuffices(level, min)
  {
  }

  /** On the scale, the level suffices exactly when it ranks at least as high. */
  lemma RankedLevelSuffices(i: nat, j: nat)
    requires i < |AcademicLevels| && j < |AcademicLevels|
    ensures LevelSuffices(AcademicLevels[i], AcademicLevels[j]) <==> i >= j
  {
    AcademicRankOfScale(i);
    AcademicRankOfScale(j);
  }

  /** Monotonicity: a higher-ranked level meets every minimum a lower-ranked
      one meets. */
  lemma LevelMonotone(low: nat, high: nat, min: string)
    requires low <= high < |AcademicLevels|
    requires LevelSuffices(AcademicLevels[low], min)
    ensures LevelSuffices(AcademicLevels[high], min)
  {
    AcademicRankOfScale(low);
    AcademicRankOfScale(high);
  }

  /** The reduction depends on the order of the entries: an unranked degree
      that comes first is kept even when a later entry is on the scale, and
      then the academic criterion passes whatever the minimum. */
  lemma UnrankedFirstIsKept()
    ensures var a := [AcademicEntry("Terciario", Some(2010)), AcademicEntry("Grado", Some(2015))];
            var s := Scholarship([], Requirements(None, "Doctorado", []));
            && HighestCompletedDegree(Some(a), 2024) == Some("Terciario")
            && MeetsAcademicLevel(User(None, Some(a), None), s, 2024)
  {
    var a := [AcademicEntry("Terciario", Some(2010)), AcademicEntry("Grado", Some(2015))];
    FilterAllPass(a, (e: AcademicEntry) => IsCompleted(e, 2024));
    TerciarioIsUnranked();
    KeepHighestUnranked(AcademicRank, "Terciario", a[1..]);
  }

  lemma TerciarioIsUnranked()
    ensures AcademicRank("Terciario").None?
  {
    assert "Terciario"[0] == 'T';
  }

  /** The same two entries in the other order: the ranked degree comes first,
      the unranked one cannot replace it, and "Grado" fails a "Doctorado"
      minimum. */
  lemma RankedFirstIsKept()
    ensures var b := [AcademicEntry("Grado", Some(2015)), AcademicEntry("Terciario", Some(2010))];
            var s := Scholarship([], Requirements(None, "Doctorado", []));
            && HighestCompletedDegree(Some(b), 2024) == Some("Grado")
            && !MeetsAcademicLevel(User(None, Some(b), None), s, 2024)
  {
    var b := [AcademicEntry("Grado", Some(2015)), AcademicEntry("Terciario", Some(2010))];
    FilterAllPass(b, (e: AcademicEntry) => IsCompleted(e, 2024));
    TerciarioIsUnranked();
    assert KeepHighest(AcademicRank, "Grado", b[1..]) == "Grado" by {
      assert !RanksAbove(AcademicRank, b[1].degree, "Grado");
      assert b[1..][1..] == [];
    }
    assert ApplicantLevel(User(None, Some(b), None), 2024) == "Grado";
    RankedLevelSuffices(1, 4);
    assert AcademicLevels[1] == "Grado" && AcademicLevels[4] == "Doctorado";
  }

  // ---------------------------------------------------------------------------
  // Languages
  // ---------------------------------------------------------------------------

  /** The language scale, lowest first. */
  const LanguageLevels: seq<string> := ["A1", "A2", "B1", "B2", "C1", "C2"]

  /** `cumpleNivelIdioma`: both levels are compared upper-cased; the check
      holds exactly when both are on the scale and the applicant's is at
      least the required one. */
  function MeetsLanguageLevel(userLevel: string, requiredLevel: string): (r: bool)
    ensures r <==> exists i, j :: 0 <= j <= i < |LanguageLevels|
                                  && ToUpper(userLevel) == LanguageLevels[i]
                                  && ToUpper(requiredLevel) == LanguageLevels[j]
  {
    var iu := IndexOf(LanguageLevels, ToUpper(userLevel));
    var ir := IndexOf(LanguageLevels, ToUpper(requiredLevel));
    if iu == -1 || ir == -1 then false
    else
      LanguageLevelsDistinct();
      iu >= ir
  }

  lemma LanguageLevelsDistinct()
    ensures forall i, j :: 0 <= i < j < |LanguageLevels| ==> LanguageLevels[i] != LanguageLevels[j]
  {
  }

  /** The comparison ignores case on both sides. */
  lemma LanguageLevelIgnoresCase(userLevel: string, requiredLevel: string)
    ensures MeetsLanguageLevel(ToUpper(userLevel), requiredLevel) == MeetsLanguageLevel(userLevel, requiredLevel)
    ensures MeetsLanguageLevel(userLevel, ToUpper(requiredLevel)) == MeetsLanguageLevel(userLevel, requiredLevel)
  {
    ToUpperIdempotent(userLevel);
    ToUpperIdempotent(requiredLevel);
  }

  /** Monotonicity: a level that meets a requirement also meets every lower
      requirement, and a higher level meets it too. */
  lemma LanguageLevelMonotone(i: nat, j: nat, k: nat)
    requires i < |LanguageLevels| && j < |LanguageLevels| && k < |LanguageLevels|
    requires MeetsLanguageLevel(LanguageLevels[i], LanguageLevels[j])
    ensures k <= j ==> MeetsLanguageLevel(LanguageLevels[i], LanguageLevels[k])
    ensures i <= k ==> MeetsLanguageLevel(LanguageLevels[k], LanguageLevels[j])
  {
    LanguageLevelsDistinct();
    ToUpperOfLevel(i);
    ToUpperOfLevel(j);
    ToUpperOfLevel(k);
  }

  lemma ToUpperOfLevel(i: nat)
    requires i < |LanguageLevels|
    ensures ToUpper(LanguageLevels[i]) == LanguageLevels[i]
  {
    var l := LanguageLevels[i];
    assert forall c :: c in l ==> UpperChar(c) == c;
  }

  /** A level outside A1..C2, on either side, fails. */
  lemma UnknownLanguageLevelFails(userLevel: string, requiredLevel: string)
    requires ToUpper(userLevel) !in LanguageLevels || ToUpper(requiredLevel) !in LanguageLevels
    ensures !MeetsLanguageLevel(userLevel, requiredLevel)
  {
  }

  predicate IsWellFormed(req: RequiredLanguage) {
    req.language.Some? && req.level.Some?
  }

  /** The callback of the inner `some` of `cumpleIdiomas` reads
      `idioma.language`, `reqIdioma.idioma`, `idioma.level` and
      `reqIdioma.nivelIdioma`; it throws unless all four are present. */
  predicate CanCompare(l: LanguageEntry, req: RequiredLanguage) {
    l.language.Some? && l.level.Some? && IsWellFormed(req)
  }

  /** The callback's answer once it does not throw: the names agree up to
      case and the level suffices. */
  predicate LanguageMatches(l: LanguageEntry, req: RequiredLanguage)
    requires CanCompare(l, req)
  {
    ToLower(l.language.value) == ToLower(req.language.value) && MeetsLanguageLevel(l.level.value, req.level.value)
  }

  /** What one call of that callback does. */
  datatype Step = Throws | Match | NoMatch

  function StepOf(l: LanguageEntry, req: RequiredLanguage): Step {
    if !CanCompare(l, req) then Throws
    else if LanguageMatches(l, req) then Match
    else NoMatch
  }

  /** The callback's outcome on each applicant entry, in order. */
  function Steps(ls: seq<LanguageEntry>, req: RequiredLanguage): (r: seq<Step>)
    ensures |r| == |ls| && forall j :: 0 <= j < |ls| ==> r[j] == StepOf(ls[j], req)
  {
    if ls == [] then [] else [StepOf(ls[0], req)] + Steps(ls[1..], req)
  }

  /** `some` over these outcomes stops with outcome `o`: some call has it and
      every call before it answered false. */
  predicate StopsWith(steps: seq<Step>, o: Step) {
    exists j :: 0 <= j < |steps| && steps[j] == o && forall j' :: 0 <= j' < j ==> steps[j'] == NoMatch
  }

  /** A first call that answers false passes the decision to the rest. */
  lemma StopsWithCons(h: Step, t: seq<Step>, o: Step)
    requires o != NoMatch
    ensures StopsWith([h] + t, o) <==> h == o || (h == NoMatch && StopsWith(t, o))
  {
    var s := [h] + t;
    if StopsWith(s, o) && h != o {
      var j :| 0 <= j < |s| && s[j] == o && forall j' :: 0 <= j' < j ==> s[j'] == NoMatch;
      assert s[0] == NoMatch && t[j - 1] == s[j];
      assert forall j' :: 0 <= j' < j - 1 ==> t[j'] == s[j' + 1];
    }
    if h == NoMatch && StopsWith(t, o) {
      var j :| 0 <= j < |t| && t[j] == o && forall j' :: 0 <= j' < j ==> t[j'] == NoMatch;
      assert s[j + 1] == o;
      assert forall j' :: 0 <= j' < j + 1 ==> s[j'] == NoMatch;
    }
    if h == o {
      assert s[0] == o;
    }
  }

  /** Without a throwing call, `some` stops with a match exactly when some
      call matches. */
  lemma {:induction false} StopsWithoutThrows(steps: seq<Step>)
    requires forall j :: 0 <= j < |steps| ==> steps[j] != Throws
    ensures !StopsWith(steps, Throws)
    ensures StopsWith(steps, Match) <==> exists j :: 0 <= j < |steps| && steps[j] == Match
  {
    if steps != [] {
      var t := steps[1..];
      assert steps == [steps[0]] + t;
      assert forall j :: 0 <= j < |t| ==> t[j] == steps[j + 1];
      StopsWithoutThrows(t);
      StopsWithCons(steps[0], t, Throws);
      StopsWithCons(steps[0], t, Match);
      if exists j :: 0 <= j < |steps| && steps[j] == Match {
        var j :| 0 <= j < |steps| && steps[j] == Match;
        if j > 0 {
          assert t[j - 1] == Match;
        }
      }
    }
  }

  /** The inner `some` gets to an applicant entry that meets `req`. */
  predicate IsSatisfied(ls: seq<LanguageEntry>, req: RequiredLanguage) {
    StopsWith(Steps(ls, req), Match)
  }

  /** The inner `some` gets to an applicant entry it cannot compare with `req`. */
  predicate RaisesOn(ls: seq<LanguageEntry>, req: RequiredLanguage) {
    StopsWith(Steps(ls, req), Throws)
  }

  /** The inner `some` of `cumpleIdiomas` over the applicant's languages for
      one required entry. None is the TypeError of a comparison that reads a
      missing field. */
  function FindLanguage(ls: seq<LanguageEntry>, req: RequiredLanguage): (r: Option<bool>)
    ensures r == Some(true) <==> IsSatisfied(ls, req)
    ensures r.None? <==> RaisesOn(ls, req)
  {
    if ls == [] then Some(false)
    else
      StopsWithCons(StepOf(ls[0], req), Steps(ls[1..], req), Match);
      StopsWithCons(StepOf(ls[0], req), Steps(ls[1..], req), Throws);
      if !CanCompare(ls[0], req) then None
      else if LanguageMatches(ls[0], req) then Some(true)
      else FindLanguage(ls[1..], req)
  }

  /** When every applicant entry has both fields, as the completeness check
      guarantees, the inner `some` throws exactly when there is an entry to
      compare and the required entry lacks a field, and it is met exactly
      when some applicant entry matches. */
  lemma CompleteEntriesCompare(ls: seq<LanguageEntry>, req: RequiredLanguage)
    requires forall i :: 0 <= i < |ls| ==> ls[i].language.Some? && ls[i].level.Some?
    ensures RaisesOn(ls, req) <==> ls != [] && !IsWellFormed(req)
    ensures IsSatisfied(ls, req) <==> IsWellFormed(req) && exists j :: 0 <= j < |ls| && LanguageMatches(ls[j], req)
  {
    var steps := Steps(ls, req);
    if !IsWellFormed(req) {
      if ls != [] {
        assert steps[0] == Throws;
      }
      assert forall j :: 0 <= j < |steps| ==> steps[j] == Throws;
    } else {
      StopsWithoutThrows(steps);
      assert forall j :: 0 <= j < |ls| ==> (steps[j] == Match <==> LanguageMatches(ls[j], req));
    }
  }

  /** `cumpleIdiomas` from a given point of the required list: `every`
      over the required entries and, for each, the inner `some` over the
      applicant's languages. None is the TypeError raised by a comparison that
      reads a missing field, or by `some` on an applicant without a
      `languages` array. */
  function MeetsLanguagesFrom(langs: Option<seq<LanguageEntry>>, reqs: seq<RequiredLanguage>): (r: Option<bool>)
    ensures r == Some(true) <==> reqs == [] || (langs.Some? && forall k :: 0 <= k < |reqs| ==> IsSatisfied(langs.value, reqs[k]))
    ensures r.None? <==> reqs != [] && (langs.None? || exists k :: RaisesAt(langs.value, reqs, k))
  {
    if reqs == [] then Some(true)
    else if langs.None? then None
    else
      var ls := langs.value;
      var found := FindLanguage(ls, reqs[0]);
      if found.None? then
        assert RaisesAt(ls, reqs, 0);
        None
      else if !found.value then Some(false)
      else
        RaisingShifts(ls, reqs);
        MeetsLanguagesFrom(langs, reqs[1..])
  }

  /** Some entry raises before an unmet one: the same holds of the required
      list once its first, met, entry is dropped. */
  predicate RaisesAt(ls: seq<LanguageEntry>, reqs: seq<RequiredLanguage>, k: int) {
    0 <= k < |reqs| && RaisesOn(ls, reqs[k])
    && forall k' :: 0 <= k' < k ==> IsSatisfied(ls, reqs[k'])
  }

  lemma RaisingShifts(ls: seq<LanguageEntry>, reqs: seq<RequiredLanguage>)
    requires reqs != [] && IsSatisfied(ls, reqs[0])
    ensures (exists k :: RaisesAt(ls, reqs[1..], k)) <==> (exists k :: RaisesAt(ls, reqs, k))
    ensures (forall k :: 0 <= k < |reqs[1..]| ==> IsSatisfied(ls, reqs[1..][k]))
            <==> (forall k :: 0 <= k < |reqs| ==> IsSatisfied(ls, reqs[k]))
  {
    if exists k :: RaisesAt(ls, reqs[1..], k) {
      var k :| RaisesAt(ls, reqs[1..], k);
      RaisesLater(ls, reqs, k);
    }
    if exists k :: RaisesAt(ls, reqs, k) {
      var k :| RaisesAt(ls, reqs, k);
      RaisesEarlier(ls, reqs, k);
    }
    SatisfiedShifts(ls, reqs);
  }

  lemma SatisfiedShifts(ls: seq<LanguageEntry>, reqs: seq<RequiredLanguage>)
    requires reqs != [] && IsSatisfied(ls, reqs[0])
    ensures (forall k :: 0 <= k < |reqs[1..]| ==> IsSatisfied(ls, reqs[1..][k]))
            <==> (forall k :: 0 <= k < |reqs| ==> IsSatisfied(ls, reqs[k]))
  {
    if forall k :: 0 <= k < |reqs[1..]| ==> IsSatisfied(ls, reqs[1..][k]) {
      forall k | 0 <= k < |reqs|
        ensures IsSatisfied(ls, reqs[k])
      {
        if k > 0 {
          assert reqs[k] == reqs[1..][k - 1];
        }
      }
    }
  }

  lemma RaisesLater(ls: seq<LanguageEntry>, reqs: seq<RequiredLanguage>, k: int)
    requires reqs != [] && IsSatisfied(ls, reqs[0])
    requires RaisesAt(ls, reqs[1..], k)
    ensures RaisesAt(ls, reqs, k + 1)
  {
    forall k' | 0 <= k' < k + 1
      ensures IsSatisfied(ls, reqs[k'])
    {
      if k' > 0 {
        assert reqs[k'] == reqs[1..][k' - 1];
      }
    }
  }

  lemma RaisesEarlier(ls: seq<LanguageEntry>, reqs: seq<RequiredLanguage>, k: int)
    requires reqs != [] && IsSatisfied(ls, reqs[0])
    requires RaisesAt(ls, reqs, k)
    ensures RaisesAt(ls, reqs[1..], k - 1)
  {
    assert k != 0;
    forall k' | 0 <= k' < k - 1
      ensures IsSatisfied(ls, reqs[1..][k'])
    {
      assert reqs[1..][k'] == reqs[k' + 1];
    }
  }

  /** `cumpleIdiomas`: true without required languages; otherwise every
      required entry must be met by some applicant language. */
  function MeetsLanguages(u: User, s: Scholarship): (r: Option<bool>)
    ensures var langs := u.languages;
            var reqs := s.requirements.requiredLanguages;
            && (r == Some(true) <==> reqs == [] || (langs.Some? && forall k :: 0 <= k < |reqs| ==> IsSatisfied(langs.value, reqs[k])))
            && (r.None? <==> reqs != [] && (langs.None? || exists k :: RaisesAt(langs.value, reqs, k)))
  {
    MeetsLanguagesFrom(u.languages, s.requirements.requiredLanguages)
  }

  /** An applicant entry missing its name or its level throws as soon as the
      inner `some` reaches it; here it is the first entry. */
  lemma MissingApplicantFieldRaises(langs: seq<LanguageEntry>, reqs: seq<RequiredLanguage>)
    requires reqs != [] && langs != []
    requires langs[0].language.None? || langs[0].level.None?
    ensures MeetsLanguagesFrom(Some(langs), reqs).None?
  {
    assert Steps(langs, reqs[0])[0] == Throws;
    assert RaisesAt(langs, reqs, 0);
  }

  /** With applicant entries that all have both fields, a throw comes from a
      required entry that lacks one. */
  lemma IllFormedOfRaise(u: User, reqs: seq<RequiredLanguage>)
    requires HasCompleteInformation(u, true)
    requires exists k :: RaisesAt(u.languages.value, reqs, k)
    ensures exists k :: 0 <= k < |reqs| && !IsWellFormed(reqs[k])
  {
    var ls := u.languages.value;
    var k :| RaisesAt(ls, reqs, k);
    CompleteEntriesCompare(ls, reqs[k]);
  }

  // ---------------------------------------------------------------------------
  // Completeness and the decision
  // ---------------------------------------------------------------------------

  /** `usuarioTieneInformacionCompleta`: `true` here is the code's `true`,
      `false` its "Faltan Datos". The checks run in the code's order, with
      `some` for the per-entry tests. */
  function HasCompleteInformation(u: User, requiresLanguage: bool): (r: bool)
    ensures r <==>
      && u.personalData.Some?
      && u.personalData.value.birthDate.Some?
      && u.personalData.value.nationality != ""
      && u.academicData.Some? && |u.academicData.value| > 0
      && (forall i :: 0 <= i < |u.academicData.value| ==> u.academicData.value[i].degree != "")
      && (requiresLanguage ==>
            && u.languages.Some? && |u.languages.value| > 0
            && forall i :: 0 <= i < |u.languages.value| ==>
                 IsFilled(u.languages.value[i].language) && IsFilled(u.languages.value[i].level))
  {
    if || u.personalData.None?
       || u.personalData.value.birthDate.None?
       || u.personalData.value.nationality == ""
       || u.academicData.None?
       || |u.academicData.value| == 0
    then false
    else if Any(u.academicData.value, (e: AcademicEntry) => e.degree == "") then false
    else if requiresLanguage && (u.languages.None? || |u.languages.value| == 0) then false
    else if requiresLanguage && Any(u.languages.value, (l: LanguageEntry) => !IsFilled(l.language) || !IsFilled(l.level)) then false
    else true
  }

  /** `cumpleRequisitos`: the label when the profile is incomplete for this
      scholarship (language data is asked for only when languages are
      required); otherwise all four criteria are computed, a TypeError from
      the language check propagates, and the answer is their conjunction. */
  function Evaluate(u: User, s: Scholarship, today: Date): (r: Outcome)
    ensures r == ProfileIncomplete <==> !HasCompleteInformation(u, |s.requirements.requiredLanguages| > 0)
    ensures r == RaisesTypeError <==>
              && s.requirements.requiredLanguages != []
              && HasCompleteInformation(u, true)
              && exists k :: RaisesAt(u.languages.value, s.requirements.requiredLanguages, k)
    ensures r == RaisesTypeError ==> exists k :: 0 <= k < |s.requirements.requiredLanguages|
                                                 && !IsWellFormed(s.requirements.requiredLanguages[k])
    ensures r == Eligible <==>
              && HasCompleteInformation(u, |s.requirements.requiredLanguages| > 0)
              && MeetsMaxAge(u, s, today)
              && MeetsNationality(u, s)
              && MeetsAcademicLevel(u, s, today.year)
              && forall k :: 0 <= k < |s.requirements.requiredLanguages| ==>
                              IsSatisfied(u.languages.value, s.requirements.requiredLanguages[k])
  {
    var reqs := s.requirements.requiredLanguages;
    if !HasCompleteInformation(u, |reqs| > 0) then ProfileIncomplete
    else
      var age := MeetsMaxAge(u, s, today);
      var nationality := MeetsNationality(u, s);
      var academic := MeetsAcademicLevel(u, s, today.year);
      var languages := MeetsLanguages(u, s);
      if languages.None? then
        IllFormedOfRaise(u, reqs);
        RaisesTypeError
      else if age && nationality && academic && languages.value then Eligible
      else Ineligible
  }

  // ---------------------------------------------------------------------------
  // Properties of the decision
  // ---------------------------------------------------------------------------

  /** A profile without birth date, nationality, academic entries or a degree
      in every entry gets the label, whatever the scholarship asks. */
  lemma MissingBasicsGiveLabel(u: User, s: Scholarship, today: Date)
    requires || u.personalData.None?
             || u.personalData.value.birthDate.None?
             || u.personalData.value.nationality == ""
             || u.academicData.None?
             || u.academicData.value == []
             || exists i :: 0 <= i < |u.academicData.value| && u.academicData.value[i].degree == ""
    ensures Evaluate(u, s, today) == ProfileIncomplete
  {
  }

  /** Language data is looked at only when the scholarship requires
      languages: without required languages, replacing the applicant's
      languages changes nothing. */
  lemma LanguagesIgnoredWhenNotRequired(u: User, s: Scholarship, today: Date, other: Option<seq<LanguageEntry>>)
    requires s.requirements.requiredLanguages == []
    ensures Evaluate(u, s, today) == Evaluate(u.(languages := other), s, today)
  {
    var v := u.(languages := other);
    if HasCompleteInformation(u, false) {
      assert MeetsMaxAge(u, s, today) == MeetsMaxAge(v, s, today);
      assert MeetsNationality(u, s) == MeetsNationality(v, s);
      assert MeetsAcademicLevel(u, s, today.year) == MeetsAcademicLevel(v, s, today.year);
    }
  }

  /** With languages required, an empty list or an entry without name or level
      gets the label. */
  lemma IncompleteLanguagesGiveLabel(u: User, s: Scholarship, today: Date)
    requires s.requirements.requiredLanguages != []
    requires || u.languages.None?
             || u.languages.value == []
             || exists i :: 0 <= i < |u.languages.value|
                            && (!IsFilled(u.languages.value[i].language) || !IsFilled(u.languages.value[i].level))
    ensures Evaluate(u, s, today) == ProfileIncomplete
  {
  }

  /** When every required language entry has both fields, no exception is
      raised: the result is one of the three business outcomes. */
  lemma WellFormedRequirementsDoNotRaise(u: User, s: Scholarship, today: Date)
    requires forall k :: 0 <= k < |s.requirements.requiredLanguages| ==> IsWellFormed(s.requirements.requiredLanguages[k])
    ensures Evaluate(u, s, today) != RaisesTypeError
  {
  }

  /** Only a complete profile can raise, and only with an ill-formed required
      entry whose predecessors are all met. */
  lemma {:induction false} RaisesOnlyOnIllFormedEntry(u: User, s: Scholarship, today: Date)
    requires Evaluate(u, s, today) == RaisesTypeError
    ensures HasCompleteInformation(u, true)
    ensures exists k :: RaisesAt(u.languages.value, s.requirements.requiredLanguages, k)
  {
    var reqs := s.requirements.requiredLanguages;
    assert MeetsLanguagesFrom(u.languages, reqs).None?;
  }

  /** Conversely, a complete profile meets a throw at the first required
      entry lacking a field when every entry before it is met. */
  lemma IllFormedEntryRaises(u: User, s: Scholarship, today: Date, k: int)
    requires HasCompleteInformation(u, true)
    requires 0 <= k < |s.requirements.requiredLanguages|
    requires !IsWellFormed(s.requirements.requiredLanguages[k])
    requires forall k' :: 0 <= k' < k ==> IsSatisfied(u.languages.value, s.requirements.requiredLanguages[k'])
    ensures Evaluate(u, s, today) == RaisesTypeError
  {
    CompleteEntriesCompare(u.languages.value, s.requirements.requiredLanguages[k]);
    assert RaisesAt(u.languages.value, s.requirements.requiredLanguages, k);
  }

  /** A higher academic degree never turns an eligible applicant into an
      ineligible one: replacing the academic data by entries whose applicant
      level ranks at least as high keeps an `Eligible` outcome. */
  lemma EligibleMonotoneInLevel(u: User, s: Scholarship, today: Date, better: seq<AcademicEntry>)
    requires Evaluate(u, s, today) == Eligible
    requires better != [] && forall i :: 0 <= i < |better| ==> better[i].degree != ""
    requires var lo := AcademicRank(ApplicantLevel(u, today.year));
             var hi := AcademicRank(ApplicantLevel(u.(academicData := Some(better)), today.year));
             lo.Some? && hi.Some? && lo.value <= hi.value
    ensures Evaluate(u.(academicData := Some(better)), s, today) == Eligible
  {
    var v := u.(academicData := Some(better));
    var required := |s.requirements.requiredLanguages| > 0;
    assert HasCompleteInformation(u, required);
    assert HasCompleteInformation(v, required);
    AcademicLevelMonotone(u, v, s, today.year);
    assert MeetsMaxAge(u, s, today) == MeetsMaxAge(v, s, today);
    assert MeetsNationality(u, s) == MeetsNationality(v, s);
  }

  /** The academic criterion passes for every applicant whose level ranks at
      least as high as that of one who passes it. */
  lemma AcademicLevelMonotone(u: User, v: User, s: Scholarship, currentYear: int)
    requires MeetsAcademicLevel(u, s, currentYear)
    requires var lo := AcademicRank(ApplicantLevel(u, currentYear));
             var hi := AcademicRank(ApplicantLevel(v, currentYear));
             lo.Some? && hi.Some? && lo.value <= hi.value
    ensures MeetsAcademicLevel(v, s, currentYear)
  {
  }
}
