/**
 * The column definitions of the user-management table: the `cell` formatters
 * of the name, role and phone columns and the `filterFn` predicates of the
 * authorities, SMS, activation and language columns.  The routed table and its
 * paginated draft define them with the same text, so this one module models
 * both.
 */
module UserColumns {
  import opened Wrappers
  import opened User
  import JsNumber

  const AdminRole: string := "ROLE_ADMIN"
  const UserRole: string := "ROLE_USER"

  /** The name cell: `${last}${first}`, last name first, no separator. */
  function NameCell(u: User): (r: string)
    ensures |r| == |u.lastName| + |u.firstName|
    ensures r[..|u.lastName|] == u.lastName && r[|u.lastName|..] == u.firstName
  {
    u.lastName + u.firstName
  }

  /**
   * The role cell: empty for a missing or empty list, "ROLE_ADMIN" when the
   * list holds it, and "ROLE_USER" for any other non-empty list.
   */
  function RoleCell(authorities: Option<seq<string>>): (r: string)
    ensures r == "" <==> authorities.None? || |authorities.value| == 0
    ensures r == AdminRole <==> authorities.Some? && AdminRole in authorities.value
    ensures r == UserRole <==>
      authorities.Some? && |authorities.value| > 0 && AdminRole !in authorities.value
  {
    match authorities
    case None => ""
    case Some(roles) =>
      if |roles| == 0 then ""
      else if AdminRole in roles then AdminRole
      else UserRole
  }

  // ---- Phone numbers ---------------------------------------------------------

  /** `value.replace(/\D/g, '')`: keep the ASCII digits, in order. */
  function StripNonDigits(s: string): (r: string)
    ensures JsNumber.AllDigits(r)
    ensures |r| <= |s|
  {
    if s == [] then []
    else if JsNumber.IsDigit(s[0]) then [s[0]] + StripNonDigits(s[1..])
    else StripNonDigits(s[1..])
  }

  /** Eleven digits start at index `i`: where `/(\d{3})(\d{4})(\d{4})/` can match. */
  predicate RunAt(s: string, i: nat) {
    i + 11 <= |s| && JsNumber.AllDigits(s[i..i + 11])
  }

  /** The leftmost index at or after `from` where the pattern matches. */
  function FindRun(s: string, from: nat): (r: Option<nat>)
    ensures r.Some? ==> from <= r.value && RunAt(s, r.value)
    ensures r.Some? ==> forall j :: from <= j < r.value ==> !RunAt(s, j)
    ensures r.None? ==> forall j :: from <= j ==> !RunAt(s, j)
    decreases |s| - from
  {
    if from + 11 > |s| then None
    else if RunAt(s, from) then Some(from)
    else FindRun(s, from + 1)
  }

  /** `s.replace(/(\d{3})(\d{4})(\d{4})/, '$1-$2-$3')`: dash the first match only. */
  function DashFirstRun(s: string): string {
    match FindRun(s, 0)
    case None => s
    case Some(i) => s[..i] + s[i..i + 3] + "-" + s[i + 3..i + 7] + "-" + s[i + 7..]
  }

  /** The phone cell: strip every non-digit, then dash the first 3-4-4 run. */
  function PhoneCell(value: string): string {
    DashFirstRun(StripNonDigits(value))
  }

  /** The string without its dashes. */
  function RemoveDashes(s: string): string {
    if s == [] then [] else (if s[0] == '-' then [] else [s[0]]) + RemoveDashes(s[1..])
  }

  lemma {:induction false} StripNonDigitsAppend(a: string, b: string)
    ensures StripNonDigits(a + b) == StripNonDigits(a) + StripNonDigits(b)
  {
    if a == [] {
      assert a + b == b;
    } else {
      assert (a + b)[1..] == a[1..] + b;
      StripNonDigitsAppend(a[1..], b);
    }
  }

  /** Stripping drops every non-digit: a string without digits strips to nothing. */
  lemma {:induction false} StripNonDigitsDropsNonDigits(s: string)
    requires forall i :: 0 <= i < |s| ==> !JsNumber.IsDigit(s[i])
    ensures StripNonDigits(s) == []
  {
    if s != [] {
      StripNonDigitsDropsNonDigits(s[1..]);
    }
  }

  /** Stripping keeps every digit: a string of digits is its own stripped form. */
  lemma {:induction false} StripNonDigitsKeepsDigits(s: string)
    requires JsNumber.AllDigits(s)
    ensures StripNonDigits(s) == s
  {
    if s != [] {
      StripNonDigitsKeepsDigits(s[1..]);
      assert [s[0]] + s[1..] == s;
    }
  }

  lemma {:induction false} RemoveDashesAppend(a: string, b: string)
    ensures RemoveDashes(a + b) == RemoveDashes(a) + RemoveDashes(b)
  {
    if a == [] {
      assert a + b == b;
    } else {
      assert (a + b)[1..] == a[1..] + b;
      RemoveDashesAppend(a[1..], b);
    }
  }

  lemma {:induction false} RemoveDashesOfDigits(s: string)
    requires JsNumber.AllDigits(s)
    ensures RemoveDashes(s) == s
  {
    if s != [] {
      RemoveDashesOfDigits(s[1..]);
      assert [s[0]] + s[1..] == s;
    }
  }

  /**
   * The phone cell by digit count: fewer than 11 digits are shown bare;
   * otherwise the first 11 read `ddd-dddd-dddd` and any further digits
   * follow the last group unchanged.
   */
  lemma PhoneCellShape(value: string)
    ensures var d := StripNonDigits(value);
      |d| < 11 ==> PhoneCell(value) == d
    ensures var d := StripNonDigits(value);
      |d| >= 11 ==> PhoneCell(value) == d[..3] + "-" + d[3..7] + "-" + d[7..]
  {
    var d := StripNonDigits(value);
    if |d| >= 11 {
      assert RunAt(d, 0);
      assert d[..0] + d[0..3] == d[..3];
    }
  }

  /** Removing the two dashes of a formatted number joins its three digit groups. */
  lemma RemoveDashesOfGroups(a: string, b: string, c: string)
    requires JsNumber.AllDigits(a) && JsNumber.AllDigits(b) && JsNumber.AllDigits(c)
    ensures RemoveDashes(a + "-" + b + "-" + c) == a + b + c
  {
    var p1 := a + "-";
    var p2 := p1 + b;
    var p3 := p2 + "-";
    assert RemoveDashes("-") == [];
    RemoveDashesOfDigits(a);
    RemoveDashesOfDigits(b);
    RemoveDashesOfDigits(c);
    RemoveDashesAppend(a, "-");
    assert RemoveDashes(p1) == a;
    RemoveDashesAppend(p1, b);
    assert RemoveDashes(p2) == a + b;
    RemoveDashesAppend(p2, "-");
    assert RemoveDashes(p3) == a + b;
    RemoveDashesAppend(p3, c);
  }

  /** The phone cell with its dashes removed is exactly the digits of the input, in order. */
  lemma PhoneCellKeepsDigits(value: string)
    ensures RemoveDashes(PhoneCell(value)) == StripNonDigits(value)
  {
    var d := StripNonDigits(value);
    PhoneCellShape(value);
    if |d| >= 11 {
      var a, b, c := d[..3], d[3..7], d[7..];
      assert JsNumber.AllDigits(a) && JsNumber.AllDigits(b) && JsNumber.AllDigits(c);
      RemoveDashesOfGroups(a, b, c);
      assert a + b + c == d;
    } else {
      RemoveDashesOfDigits(d);
    }
  }

  // ---- Filters ---------------------------------------------------------------

  /** A column filter value: a string, or `undefined` (`None`). */
  type FilterValue = Option<string>

  /** `!value`: undefined and the empty string are falsy. */
  predicate Falsy(value: FilterValue) {
    value.None? || value.value == ""
  }

  /** What evaluating a `filterFn` can throw. */
  datatype JsError = TypeError

  /**
   * The authorities filter: everything passes on a falsy value; otherwise
   * `v.includes(value)` on the raw list, which throws when the list is null.
   */
  function AuthoritiesFilter(u: User, value: FilterValue): (r: Result<bool, JsError>)
    ensures Falsy(value) ==> r == Success(true)
    ensures !Falsy(value) ==> (r.Failure? <==> u.authorities.None?)
    ensures !Falsy(value) && r.Success? ==> (r.value <==> value.value in u.authorities.value)
  {
    if Falsy(value) then Success(true)
    else match u.authorities
      case None => Failure(TypeError)
      case Some(roles) => Success(value.value in roles)
  }

  /** The shared shape of the SMS and language filters: exact equality on a truthy value. */
  function ExactFilter(field: string, value: FilterValue): (r: bool)
    ensures Falsy(value) ==> r
    ensures !Falsy(value) ==> (r <==> field == value.value)
  {
    Falsy(value) || field == value.value
  }

  /** The SMS filter: every row on a falsy value, otherwise the rows whose `sms_yn` is that value. */
  function SmsYnFilter(u: User, value: FilterValue): (r: bool)
    ensures Falsy(value) ==> r
    ensures !Falsy(value) ==> (r <==> u.smsYn == value.value)
  {
    ExactFilter(u.smsYn, value)
  }

  /** The language filter: every row on a falsy value, otherwise the rows whose `lang_key` is that value. */
  function LangKeyFilter(u: User, value: FilterValue): (r: bool)
    ensures Falsy(value) ==> r
    ensures !Falsy(value) ==> (r <==> u.langKey == value.value)
  {
    ExactFilter(u.langKey, value)
  }

  /** Of the SMS options "Y" and "N" a row passes at most one, and a row holding either passes one. */
  lemma SmsYnFilterOptions(u: User)
    ensures !(SmsYnFilter(u, Some("Y")) && SmsYnFilter(u, Some("N")))
    ensures u.smsYn == "Y" || u.smsYn == "N" ==> SmsYnFilter(u, Some("Y")) || SmsYnFilter(u, Some("N"))
  {
  }

  /** Of the language options "ko" and "en" a row passes at most one; the empty option passes all. */
  lemma LangKeyFilterOptions(u: User)
    ensures !(LangKeyFilter(u, Some("ko")) && LangKeyFilter(u, Some("en")))
    ensures LangKeyFilter(u, None) && LangKeyFilter(u, Some(""))
  {
  }

  /** The activation filter: on a truthy value, `activated === (value === 'true')`. */
  function ActivatedFilter(u: User, value: FilterValue): (r: bool)
    ensures Falsy(value) ==> r
    ensures value == Some("true") ==> (r <==> u.activated)
    ensures !Falsy(value) && value != Some("true") ==> (r <==> !u.activated)
  {
    Falsy(value) || u.activated == (value.value == "true")
  }

  /** The two options "true" and "false" of the activation select split the rows in two. */
  lemma ActivatedFilterPartitions(u: User, other: string)
    requires other != "" && other != "true"
    ensures ActivatedFilter(u, Some("true")) != ActivatedFilter(u, Some(other))
  {
  }

  /**
   * Filtering on "ROLE_ADMIN" selects exactly the rows whose role cell reads
   * ROLE_ADMIN; on a null list the filter throws and the cell is empty.
   */
  lemma AdminFilterMatchesRoleCell(u: User)
    ensures AuthoritiesFilter(u, Some(AdminRole)) == Success(true) <==> RoleCell(u.authorities) == AdminRole
  {
  }

  /**
   * Filtering on "ROLE_USER" is list membership, not the displayed role: an
   * administrator who also holds ROLE_USER passes although the cell reads
   * ROLE_ADMIN, and a row with only some other role is dropped although the
   * cell reads ROLE_USER.
   */
  lemma UserFilterIsNotRoleCell(u: User, v: User)
    requires u.authorities == Some([AdminRole, UserRole])
    requires v.authorities == Some(["ROLE_GUEST"])
    ensures AuthoritiesFilter(u, Some(UserRole)) == Success(true) && RoleCell(u.authorities) == AdminRole
    ensures AuthoritiesFilter(v, Some(UserRole)) == Success(false) && RoleCell(v.authorities) == UserRole
  {
    assert AdminRole in [AdminRole, UserRole];
    assert UserRole in [AdminRole, UserRole];
    assert ["ROLE_GUEST"][0] != UserRole;
  }
}
