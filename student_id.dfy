/**
 * The student id kept in the browser's local storage
 * (app/utils/student-id.ts): the format check, and reading, saving, testing
 * and clearing the stored id. Reading removes a stored id that fails the
 * check.
 */
module StudentId {
  import opened Wrappers
  import opened JsText
  import opened Json

  /** The storage key of the id. */
  const StudentIdKey: string := "student_id"

  /** The administrator's id, accepted whatever the year. */
  const RootId: string := "root"

  const FirstYear: int := 2010

  /** Exactly eight characters, each matching `\d`. */
  predicate EightDigits(t: string) {
    |t| == 8 && forall i :: 0 <= i < 8 ==> IsDigit(t[i])
  }

  /** The year an eight-digit id starts with (`parseInt` of its first four digits). */
  function EntryYear(t: string): (y: nat)
    requires EightDigits(t)
    ensures y <= 9999
  {
    DigitsValue(t[..4])
  }

  /**
   * `validateStudentId`, with the year of the clock as `currentYear`: an
   * empty or non-string value fails; after trimming, `root` passes, and any
   * other id must be eight digits whose first four lie in 2010..currentYear+5.
   */
  function ValidateStudentId(v: Json, currentYear: int): (ok: bool)
    ensures ok ==> v.Str? && Trim(v.s) != []
    ensures v.Str? && Trim(v.s) == RootId ==> ok
    ensures ok && Trim(v.s) != RootId ==> EightDigits(Trim(v.s)) && FirstYear <= EntryYear(Trim(v.s)) <= currentYear + 5
    ensures v.Str? && EightDigits(Trim(v.s)) && FirstYear <= EntryYear(Trim(v.s)) <= currentYear + 5 ==> ok
  {
    if !Truthy(v) || !v.Str? then false
    else
      var t := Trim(v.s);
      if t == RootId then true
      else if !EightDigits(t) then false
      else
        var year := EntryYear(t);
        !(year < FirstYear || year > currentYear + 5)
  }

  /** Only the trimmed text counts: two strings that trim alike are judged alike (an empty one and a blank one are both rejected). */
  lemma ValidityDependsOnTrim(s: string, u: string, currentYear: int)
    requires Trim(s) == Trim(u)
    ensures ValidateStudentId(Str(s), currentYear) == ValidateStudentId(Str(u), currentYear)
  {
  }

  /** Trimming a valid id, as saving does, keeps it valid. */
  lemma TrimmedStaysValid(s: string, currentYear: int)
    requires ValidateStudentId(Str(s), currentYear)
    ensures ValidateStudentId(Str(Trim(s)), currentYear)
  {
    TrimIdempotent(s);
  }

  /** An id valid this year stays valid in later years. */
  lemma ValidLater(v: Json, currentYear: int, laterYear: int)
    requires currentYear <= laterYear && ValidateStudentId(v, currentYear)
    ensures ValidateStudentId(v, laterYear)
  {
  }

  /** Text with no white space at either end is its own trim. */
  lemma TrimUntouched(s: string)
    requires s != [] && !IsWhiteSpace(s[0]) && !IsWhiteSpace(s[|s| - 1])
    ensures Trim(s) == s
  {
    assert LeadingSpace(s) == 0;
    assert TrailingStart(s) == |s|;
  }

  /** The year read from four digits. */
  lemma YearOf(t: string, a: char, b: char, c: char, d: char)
    requires EightDigits(t) && t[0] == a && t[1] == b && t[2] == c && t[3] == d
    ensures EntryYear(t) == DigitValue(a) * 1000 + DigitValue(b) * 100 + DigitValue(c) * 10 + DigitValue(d)
  {
    assert t[..1][..0] == [];
    assert DigitsValue(t[..1]) == DigitValue(a);
    assert t[..2][..1] == t[..1];
    assert DigitsValue(t[..2]) == DigitValue(a) * 10 + DigitValue(b);
    assert t[..3][..2] == t[..2];
    assert DigitsValue(t[..3]) == DigitValue(a) * 100 + DigitValue(b) * 10 + DigitValue(c);
    assert t[..4][..3] == t[..3];
  }

  /** `root` with spaces around passes. */
  lemma RootExample()
    ensures ValidateStudentId(Str(" root "), 2025)
  {
    assert LeadingSpace(" root ") == 1;
    assert TrailingStart(" root ") == 5;
  }

  /** The verdict on an untrimmed eight-digit id is the range test on its first four digits. */
  lemma EightDigitVerdict(t: string, a: char, b: char, c: char, d: char, currentYear: int)
    requires EightDigits(t) && Trim(t) == t && t[0] == a && t[1] == b && t[2] == c && t[3] == d
    ensures ValidateStudentId(Str(t), currentYear) <==>
      FirstYear <= DigitValue(a) * 1000 + DigitValue(b) * 100 + DigitValue(c) * 10 + DigitValue(d) <= currentYear + 5
  {
    YearOf(t, a, b, c, d);
    assert t != RootId;
  }

  /** Seven digits, the empty string and a number fail. */
  lemma MalformedExamples()
    ensures !ValidateStudentId(Str("2023123"), 2025)
    ensures !ValidateStudentId(Str(""), 2025)
    ensures !ValidateStudentId(Num(20231234.0), 2025)
  {
    TrimUntouched("2023123");
  }

  /**
   * The browser's local storage as the id functions see it. Without a
   * window (server-side rendering) every operation does nothing.
   */
  class IdStore {
    const hasWindow: bool
    var items: map<string, string>

    constructor(hasWindow: bool, items: map<string, string>)
      ensures this.hasWindow == hasWindow && this.items == items
    {
      this.hasWindow := hasWindow;
      this.items := items;
    }

    /**
     * `getStudentId`: the stored id; a non-empty stored id that fails the
     * check is removed and reported as absent.
     */
    method GetStudentId(currentYear: int) returns (id: Option<string>)
      modifies this
      ensures !hasWindow || StudentIdKey !in old(items) ==> id == None && items == old(items)
      ensures hasWindow && StudentIdKey in old(items) ==>
        var stored := old(items)[StudentIdKey];
        if stored != "" && !ValidateStudentId(Str(stored), currentYear)
        then id == None && items == old(items) - {StudentIdKey}
        else id == Some(stored) && items == old(items)
      ensures id.Some? ==> id.value == "" || ValidateStudentId(Str(id.value), currentYear)
      ensures hasWindow && StudentIdKey in items ==>
        items[StudentIdKey] == "" || ValidateStudentId(Str(items[StudentIdKey]), currentYear)
    {
      if !hasWindow {
        return None;
      }
      if StudentIdKey !in items {
        return None;
      }
      var stored := items[StudentIdKey];
      if stored != "" && !ValidateStudentId(Str(stored), currentYear) {
        items := items - {StudentIdKey};
        return None;
      }
      return Some(stored);
    }

    /** `setStudentId`: the trimmed id is stored under the id key. */
    method SetStudentId(studentId: string)
      modifies this
      ensures items == if hasWindow then old(items)[StudentIdKey := Trim(studentId)] else old(items)
    {
      if hasWindow {
        items := items[StudentIdKey := Trim(studentId)];
      }
    }

    /**
     * `hasStudentId`: true exactly when a stored id passes the check (a
     * failing one is removed on the way).
     */
    method HasStudentId(currentYear: int) returns (b: bool)
      modifies this
      ensures b <==> hasWindow && StudentIdKey in old(items) && ValidateStudentId(Str(old(items)[StudentIdKey]), currentYear)
      ensures items == if hasWindow && StudentIdKey in old(items) && old(items)[StudentIdKey] != ""
                          && !ValidateStudentId(Str(old(items)[StudentIdKey]), currentYear)
                       then old(items) - {StudentIdKey} else old(items)
    {
      var id := GetStudentId(currentYear);
      b := id != None && |Trim(id.value)| > 0;
    }

    /** `clearStudentId`: the id key is removed. */
    method ClearStudentId()
      modifies this
      ensures items == if hasWindow then old(items) - {StudentIdKey} else old(items)
    {
      if hasWindow {
        items := items - {StudentIdKey};
      }
    }
  }

  /** Saving a valid id and then asking whether one is stored answers yes; clearing it answers no. */
  method SaveThenAsk(store: IdStore, studentId: string, currentYear: int) returns (saved: bool, cleared: bool)
    requires store.hasWindow && ValidateStudentId(Str(studentId), currentYear)
    modifies store
    ensures saved && !cleared
  {
    store.SetStudentId(studentId);
    TrimmedStaysValid(studentId, currentYear);
    saved := store.HasStudentId(currentYear);
    store.ClearStudentId();
    cleared := store.HasStudentId(currentYear);
  }
}
