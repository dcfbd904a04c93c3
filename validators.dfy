/**
 * The request checks and string builders that run in the handlers before any
 * statement reaches the database.
 */
module Validators {
  import opened Wrappers
  import opened JsValues
  import opened Replies

  // ---------------------------------------------------------------------------
  // Password strength (change-password)
  // ---------------------------------------------------------------------------

  predicate IsLowerAscii(c: char) {
    'a' <= c <= 'z'
  }

  predicate IsUpperAscii(c: char) {
    'A' <= c <= 'Z'
  }

  /** The special characters the strength rule asks for: `@$!%*?&`. */
  predicate IsSpecial(c: char) {
    c == '@' || c == '$' || c == '!' || c == '%' || c == '*' || c == '?' || c == '&'
  }

  /** The character class `[A-Za-z\d@$!%*?&]` every character must belong to. */
  predicate IsPasswordChar(c: char) {
    IsLowerAscii(c) || IsUpperAscii(c) || IsDigit(c) || IsSpecial(c)
  }

  /** What the four lookaheads and the character class of the rule look for. */
  datatype Classes = Classes(lower: bool, upper: bool, digit: bool, special: bool, onlyAllowed: bool)

  /** One pass over a candidate password collecting the classes it contains. */
  function Scan(p: string): (c: Classes)
    ensures c.lower <==> exists i :: 0 <= i < |p| && IsLowerAscii(p[i])
    ensures c.upper <==> exists i :: 0 <= i < |p| && IsUpperAscii(p[i])
    ensures c.digit <==> exists i :: 0 <= i < |p| && IsDigit(p[i])
    ensures c.special <==> exists i :: 0 <= i < |p| && IsSpecial(p[i])
    ensures c.onlyAllowed <==> forall i :: 0 <= i < |p| ==> IsPasswordChar(p[i])
  {
    if p == [] then Classes(false, false, false, false, true)
    else
      var rest := Scan(p[1..]);
      assert forall i :: 0 < i < |p| ==> p[i] == p[1..][i - 1];
      Classes(rest.lower || IsLowerAscii(p[0]),
              rest.upper || IsUpperAscii(p[0]),
              rest.digit || IsDigit(p[0]),
              rest.special || IsSpecial(p[0]),
              rest.onlyAllowed && IsPasswordChar(p[0]))
  }

  /** The strength rule of change-password: at least eight characters, all from
      `A-Z a-z 0-9 @$!%*?&`, with at least one lower-case letter, one upper-case
      letter, one digit and one special character. */
  function IsStrongPassword(p: string): (ok: bool)
    ensures ok <==>
      && |p| >= 8
      && (forall i :: 0 <= i < |p| ==> IsPasswordChar(p[i]))
      && (exists i :: 0 <= i < |p| && IsLowerAscii(p[i]))
      && (exists i :: 0 <= i < |p| && IsUpperAscii(p[i]))
      && (exists i :: 0 <= i < |p| && IsDigit(p[i]))
      && (exists i :: 0 <= i < |p| && IsSpecial(p[i]))
  {
    var c := Scan(p);
    |p| >= 8 && c.onlyAllowed && c.lower && c.upper && c.digit && c.special
  }

  /** The rendering of an integer holds only digits and a minus sign. */
  lemma IntToStringChars(n: int)
    ensures forall i :: 0 <= i < |IntToString(n)| ==> IsDigit(IntToString(n)[i]) || IntToString(n)[i] == '-'
  {
    var s := IntToString(n);
    if n < 0 {
      assert forall i :: 1 <= i < |s| ==> s[i] == NatToString(-n)[i - 1];
    }
  }

  /** `RegExp.prototype.test` converts its argument with `String(v)`; only a
      non-empty string can pass the strength rule. */
  lemma StrongOnlyFromString(v: Value)
    requires IsStrongPassword(ToStr(v))
    ensures v.Str? && v.s != ""
  {
    var p := ToStr(v);
    var i :| 0 <= i < |p| && IsUpperAscii(p[i]);
    match v
    case Undefined =>
    case Null =>
    case Bool(b) =>
    case Str(s) =>
    case Number(n) => IntToStringChars(n);
  }

  /** The input checks of change-password, in the source's order: the strength
      rule first (so a missing new password is reported as weak), then the three
      fields must all be truthy. On success the new password is returned. */
  function CheckPasswordChange(userId: Value, currentPassword: Value, newPassword: Value): (r: Result<string, Response>)
    ensures r.Ok? <==> IsStrongPassword(ToStr(newPassword)) && Truthy(userId) && Truthy(currentPassword)
    ensures r.Ok? ==> newPassword == Str(r.value) && IsStrongPassword(r.value)
    ensures r == Err(BadRequest(WeakPassword)) <==> !IsStrongPassword(ToStr(newPassword))
    ensures r.Err? ==> r.error == BadRequest(WeakPassword) || r.error == BadRequest(MissingFields)
  {
    if !IsStrongPassword(ToStr(newPassword)) then Err(BadRequest(WeakPassword))
    else
      StrongOnlyFromString(newPassword);
      if !Truthy(userId) || !Truthy(currentPassword) || !Truthy(newPassword) then Err(BadRequest(MissingFields))
      else Ok(newPassword.s)
  }

  // ---------------------------------------------------------------------------
  // Teacher user name (create-teacher)
  // ---------------------------------------------------------------------------

  /** `toLowerCase` on one character; only A-Z is mapped. */
  function ToLowerAscii(c: char): char {
    if IsUpperAscii(c) then ((c as int) + 32) as char else c
  }

  /** `s.toLowerCase()` */
  function Lower(s: string): (r: string)
    ensures |r| == |s|
    ensures forall i :: 0 <= i < |s| ==> r[i] == ToLowerAscii(s[i])
  {
    if s == [] then [] else [ToLowerAscii(s[0])] + Lower(s[1..])
  }

  /** `s.replace(/\s+/g, '')` */
  function RemoveWhitespace(s: string): (r: string)
    ensures |r| <= |s|
    ensures forall c :: c in r <==> c in s && !IsWhitespace(c)
  {
    if s == [] then []
    else if IsWhitespace(s[0]) then RemoveWhitespace(s[1..])
    else [s[0]] + RemoveWhitespace(s[1..])
  }

  /** Removing white space distributes over concatenation, so the characters
      that stay keep their order. */
  lemma {:induction false} RemoveWhitespaceAppend(a: string, b: string)
    ensures RemoveWhitespace(a + b) == RemoveWhitespace(a) + RemoveWhitespace(b)
  {
    if a != [] {
      assert (a + b)[0] == a[0];
      assert (a + b)[1..] == a[1..] + b;
      RemoveWhitespaceAppend(a[1..], b);
    } else {
      assert a + b == b;
    }
  }

  /** `clean`: lower-case, then delete all white space. */
  function Clean(s: string): (r: string)
    ensures |r| <= |s|
    ensures forall c :: c in r ==> !IsWhitespace(c) && !IsUpperAscii(c)
  {
    RemoveWhitespace(Lower(s))
  }

  /** The login name generated for a new teacher. */
  function Username(first: string, last: string, teacherId: int): (u: string)
    ensures var d := IntToString(teacherId); |u| > |d| && u[|u| - |d| - 1..] == "_" + d
    ensures |u| == |Clean(first)| + |Clean(last)| + 2 + |IntToString(teacherId)|
  {
    Clean(first) + "_" + Clean(last) + "_" + IntToString(teacherId)
  }

  /** What follows the last `_` of a string (all of it when there is none). */
  function AfterLastUnderscore(s: string): (r: string)
    ensures '_' !in r
  {
    if s == [] then []
    else if s[|s| - 1] == '_' then []
    else AfterLastUnderscore(s[..|s| - 1]) + [s[|s| - 1]]
  }

  /** The teacher id read back from a generated user name. */
  function TeacherIdOfUsername(u: string): Num {
    ParseInt10(AfterLastUnderscore(u))
  }

  lemma {:induction false} LowerWithoutUpper(s: string)
    requires forall c :: c in s ==> !IsUpperAscii(c)
    ensures Lower(s) == s
  {
    if s != [] {
      assert s[0] in s;
      assert forall c :: c in s[1..] ==> c in s;
      LowerWithoutUpper(s[1..]);
    }
  }

  lemma {:induction false} RemoveWhitespaceWithoutWhitespace(s: string)
    requires forall c :: c in s ==> !IsWhitespace(c)
    ensures RemoveWhitespace(s) == s
  {
    if s != [] {
      assert s[0] in s;
      assert forall c :: c in s[1..] ==> c in s;
      RemoveWhitespaceWithoutWhitespace(s[1..]);
    }
  }

  /** Cleaning a cleaned name changes nothing. */
  lemma CleanIdempotent(s: string)
    ensures Clean(Clean(s)) == Clean(s)
  {
    var c := Clean(s);
    LowerWithoutUpper(c);
    RemoveWhitespaceWithoutWhitespace(c);
  }

  lemma {:induction false} AfterLastUnderscoreOf(x: string, d: string)
    requires '_' !in d
    ensures AfterLastUnderscore(x + "_" + d) == d
    decreases |d|
  {
    var s := x + "_" + d;
    if d != [] {
      assert s[..|s| - 1] == x + "_" + d[..|d| - 1];
      assert d[|d| - 1] in d;
      assert forall c :: c in d[..|d| - 1] ==> c in d;
      AfterLastUnderscoreOf(x, d[..|d| - 1]);
    }
  }

  /** The generated user name holds no white space and no upper-case letter,
      and its last `_`-separated segment is the teacher id, which reads back. */
  lemma UsernameProperties(first: string, last: string, teacherId: int)
    ensures forall c :: c in Username(first, last, teacherId) ==> !IsWhitespace(c) && !IsUpperAscii(c)
    ensures AfterLastUnderscore(Username(first, last, teacherId)) == IntToString(teacherId)
    ensures TeacherIdOfUsername(Username(first, last, teacherId)) == Finite(teacherId)
  {
    var d := IntToString(teacherId);
    IntToStringChars(teacherId);
    assert forall c :: c in d ==> IsDigit(c) || c == '-' by {
      forall c | c in d ensures IsDigit(c) || c == '-' {
        var i :| 0 <= i < |d| && d[i] == c;
      }
    }
    var x := Clean(first) + "_" + Clean(last);
    assert forall c :: c in x ==> !IsWhitespace(c) && !IsUpperAscii(c);
    assert forall c :: c in d ==> !IsWhitespace(c) && !IsUpperAscii(c);
    assert Username(first, last, teacherId) == x + "_" + d;
    AfterLastUnderscoreOf(x, d);
    ParseIntOfIntToString(teacherId);
  }

  /** Two teachers with different ids never get the same user name. */
  lemma UsernameDeterminesTeacher(f1: string, l1: string, a: int, f2: string, l2: string, b: int)
    requires Username(f1, l1, a) == Username(f2, l2, b)
    ensures a == b
  {
    UsernameProperties(f1, l1, a);
    UsernameProperties(f2, l2, b);
  }

  // ---------------------------------------------------------------------------
  // Group update input (PUT /api/admin/groups/:id)
  // ---------------------------------------------------------------------------

  /** A group update that passed the input checks. */
  datatype GroupEdit = GroupEdit(id: int, name: string, grade: int, teacher: int)

  /** `(GROUP_NAME ?? NAME ?? '').toString().trim()` */
  function GroupNameInput(groupName: Value, name: Value): (r: string)
    ensures groupName.Str? ==> r == Trim(groupName.s)
    ensures (groupName.Undefined? || groupName.Null?) && name.Str? ==> r == Trim(name.s)
    ensures (groupName.Undefined? || groupName.Null?) && (name.Undefined? || name.Null?) ==> r == ""
    ensures r != [] ==> !IsWhitespace(r[0]) && !IsWhitespace(r[|r| - 1])
  {
    TrimmedEnds(ToStr(Coalesce(Coalesce(groupName, name), Str(""))));
    Trim(ToStr(Coalesce(Coalesce(groupName, name), Str(""))))
  }

  /** A trimmed string neither begins nor ends with white space. */
  lemma TrimmedEnds(s: string)
    ensures Trim(s) != [] ==> !IsWhitespace(Trim(s)[0]) && !IsWhitespace(Trim(s)[|Trim(s)| - 1])
  {
    var t := TrimStart(s);
    TrimStartSuffix(s);
    TrimEndPrefix(t);
    if Trim(s) != [] {
      assert Trim(s)[0] == t[0];
    }
  }

  /** The input checks of group update, in the source's order: the id must parse,
      the trimmed name must be non-empty, grade and teacher must not be NaN. */
  function ParseGroupEdit(idParam: string, groupName: Value, name: Value, gradeUpper: Value,
                          gradeLower: Value, teacherUpper: Value, teacherLower: Value): (r: Result<GroupEdit, Response>)
    ensures r.Ok? <==>
      && ParseInt10(idParam).Finite?
      && GroupNameInput(groupName, name) != ""
      && ToNumber(Coalesce(gradeUpper, gradeLower)).Finite?
      && ToNumber(Coalesce(teacherUpper, teacherLower)).Finite?
    ensures r.Ok? ==>
      && ParseInt10(idParam) == Finite(r.value.id)
      && ToNumber(Coalesce(gradeUpper, gradeLower)) == Finite(r.value.grade)
      && ToNumber(Coalesce(teacherUpper, teacherLower)) == Finite(r.value.teacher)
      && r.value.name != ""
      && !IsWhitespace(r.value.name[0]) && !IsWhitespace(r.value.name[|r.value.name| - 1])
    ensures r == Err(BadRequest(InvalidGroupId)) <==> ParseInt10(idParam).NaN?
    ensures r == Err(BadRequest(GroupNameRequired)) <==>
      ParseInt10(idParam).Finite? && GroupNameInput(groupName, name) == ""
    ensures r == Err(BadRequest(InvalidGradeId)) <==>
      && ParseInt10(idParam).Finite? && GroupNameInput(groupName, name) != ""
      && ToNumber(Coalesce(gradeUpper, gradeLower)).NaN?
    ensures r == Err(BadRequest(InvalidTeacherId)) <==>
      && ParseInt10(idParam).Finite? && GroupNameInput(groupName, name) != ""
      && ToNumber(Coalesce(gradeUpper, gradeLower)).Finite?
      && ToNumber(Coalesce(teacherUpper, teacherLower)).NaN?
    ensures r.Err? ==>
      r.error in {BadRequest(InvalidGroupId), BadRequest(GroupNameRequired),
                  BadRequest(InvalidGradeId), BadRequest(InvalidTeacherId)}
  {
    var id := ParseInt10(idParam);
    var nm := GroupNameInput(groupName, name);
    var grade := ToNumber(Coalesce(gradeUpper, gradeLower));
    var teacher := ToNumber(Coalesce(teacherUpper, teacherLower));
    TrimmedEnds(ToStr(Coalesce(Coalesce(groupName, name), Str(""))));
    if id.NaN? then Err(BadRequest(InvalidGroupId))
    else if nm == "" then Err(BadRequest(GroupNameRequired))
    else if grade.NaN? then Err(BadRequest(InvalidGradeId))
    else if teacher.NaN? then Err(BadRequest(InvalidTeacherId))
    else Ok(GroupEdit(id.n, nm, grade.n, teacher.n))
  }

  /** The precedence of the duplicated body keys: `GROUP_NAME` wins over `NAME`
      unless it is null or undefined, and a grade sent only as `gradeId: null`
      reads as grade 0 because `Number(null)` is 0. */
  lemma GroupEditKeyPrecedence(idParam: string, groupName: Value, name: Value, gradeUpper: Value,
                               gradeLower: Value, teacherUpper: Value, teacherLower: Value)
    requires ParseGroupEdit(idParam, groupName, name, gradeUpper, gradeLower, teacherUpper, teacherLower).Ok?
    ensures var e := ParseGroupEdit(idParam, groupName, name, gradeUpper, gradeLower, teacherUpper, teacherLower).value;
      && (groupName.Str? ==> e.name == Trim(groupName.s))
      && ((gradeUpper.Undefined? || gradeUpper.Null?) && gradeLower.Null? ==> e.grade == 0)
  {
  }

  // ---------------------------------------------------------------------------
  // Cash report filter (GET /api/cash-report)
  // ---------------------------------------------------------------------------

  /** The period the report is restricted to, with the values bound for it. */
  datatype CashFilter = Daily(day: Value) | Monthly(month: Num, year: Num) | Yearly(year: Num)

  const DayRequired := "day is required (YYYY-MM-DD)"
  const MonthAndYearRequired := "month & year are required"
  const YearRequired := "year is required"
  const UnknownReportType := "type must be daily | monthly | yearly"

  /** Selects the report's period from the query's `type`, or the 400 message. */
  function SelectCashFilter(kind: Value, year: Value, month: Value, day: Value): (r: Result<CashFilter, string>)
    ensures r.Ok? <==>
      || (kind == Str("daily") && Truthy(day))
      || (kind == Str("monthly") && Truthy(month) && Truthy(year))
      || (kind == Str("yearly") && Truthy(year))
    ensures r.Ok? && r.value.Daily? ==> kind == Str("daily") && r.value.day == day
    ensures r.Ok? && r.value.Monthly? ==>
      kind == Str("monthly") && r.value.month == ToNumber(month) && r.value.year == ToNumber(year)
    ensures r.Ok? && r.value.Yearly? ==> kind == Str("yearly") && r.value.year == ToNumber(year)
    ensures r.Err? ==>
      r.error == if kind == Str("daily") then DayRequired
      else if kind == Str("monthly") then MonthAndYearRequired
      else if kind == Str("yearly") then YearRequired
      else UnknownReportType
  {
    if kind == Str("daily") then
      if !Truthy(day) then Err(DayRequired) else Ok(Daily(day))
    else if kind == Str("monthly") then
      if !Truthy(month) || !Truthy(year) then Err(MonthAndYearRequired)
      else Ok(Monthly(ToNumber(month), ToNumber(year)))
    else if kind == Str("yearly") then
      if !Truthy(year) then Err(YearRequired) else Ok(Yearly(ToNumber(year)))
    else Err(UnknownReportType)
  }

  // ---------------------------------------------------------------------------
  // Teacher image URL (POST /api/change-teacher-image)
  // ---------------------------------------------------------------------------

  const CloudinaryPrefix := "https://res.cloudinary.com/"

  /** The input checks of change-teacher-image. Both fields must be truthy; the
      URL's `startsWith` then runs outside the handler's try block, so a truthy
      URL that is not a string throws and no answer is sent. */
  function CheckImageRequest(teacherId: Value, imageUrl: Value): (r: Result<string, Response>)
    ensures r.Ok? <==>
      Truthy(teacherId) && imageUrl.Str? && imageUrl.s != "" && |CloudinaryPrefix| <= |imageUrl.s|
      && imageUrl.s[..|CloudinaryPrefix|] == CloudinaryPrefix
    ensures r.Ok? ==> imageUrl == Str(r.value)
    ensures r == Err(BadRequest(MissingFields)) <==> !Truthy(teacherId) || !Truthy(imageUrl)
    ensures r == Err(Unhandled) <==> Truthy(teacherId) && Truthy(imageUrl) && !imageUrl.Str?
    ensures r == Err(BadRequest(InvalidImageUrl)) <==>
      Truthy(teacherId) && imageUrl.Str? && imageUrl.s != ""
      && !(|CloudinaryPrefix| <= |imageUrl.s| && imageUrl.s[..|CloudinaryPrefix|] == CloudinaryPrefix)
  {
    if !Truthy(teacherId) || !Truthy(imageUrl) then Err(BadRequest(MissingFields))
    else if !imageUrl.Str? then Err(Unhandled)
    else if !(|CloudinaryPrefix| <= |imageUrl.s| && imageUrl.s[..|CloudinaryPrefix|] == CloudinaryPrefix) then
      Err(BadRequest(InvalidImageUrl))
    else Ok(imageUrl.s)
  }
}
