/** The bean-validation constraints declared on the inbound signature request,
    its members and their sign positions, and the request's default filename. */
module RequestValidation {
  import opened JavaLang
  import opened Dto

  /** `@NotBlank`: not null, and some character survives `trim`. */
  predicate NotBlank(s: Option<string>) {
    s.Some? && !AllTrimmed(s.value)
  }

  /** `@NotEmpty` on a list: not null and at least one element. */
  predicate NotEmpty<T>(xs: Option<seq<T>>) {
    xs.Some? && |xs.value| > 0
  }

  /** The validator's own reading of `@NotBlank`: non-null with a non-empty trimmed value. */
  lemma NotBlankIff(s: Option<string>)
    ensures NotBlank(s) <==> s.Some? && Trim(s.value) != []
  {
    if s.Some? {
      TrimEmptyIff(s.value);
    }
  }

  // ---------------------------------------------------------------------
  // The phone pattern ^\+[1-9]\d{1,14}$, matched against the whole value.

  predicate NonZeroDigit(c: char) {
    '1' <= c <= '9'
  }

  /** `\d{min,max}` matching all of `s`, one digit at a time. */
  predicate DigitsBetween(s: string, min: nat, max: nat)
    decreases |s|
  {
    if |s| == 0 then min == 0
    else max > 0 && IsDigit(s[0]) && DigitsBetween(s[1..], if min > 0 then min - 1 else 0, max - 1)
  }

  /** The phone regular expression, read left to right. */
  predicate PhonePattern(s: string) {
    |s| >= 2 && s[0] == '+' && NonZeroDigit(s[1]) && DigitsBetween(s[2..], 1, 14)
  }

  /** `@Pattern` accepts a null value; `@NotBlank` is what rejects it. */
  predicate PhoneConstraint(phone: Option<string>) {
    phone.None? || PhonePattern(phone.value)
  }

  lemma {:induction false} DigitsBetweenIff(s: string, min: nat, max: nat)
    ensures DigitsBetween(s, min, max) <==> min <= |s| <= max && AllDigits(s)
    decreases |s|
  {
    if |s| > 0 && max > 0 {
      DigitsBetweenIff(s[1..], if min > 0 then min - 1 else 0, max - 1);
      if AllDigits(s) {
        assert AllDigits(s[1..]) by {
          forall i | 0 <= i < |s| - 1
            ensures IsDigit(s[1..][i])
          {
            assert s[1..][i] == s[i + 1];
          }
        }
      }
      if IsDigit(s[0]) && AllDigits(s[1..]) {
        forall i | 0 <= i < |s|
          ensures IsDigit(s[i])
        {
          if i > 0 {
            assert s[i] == s[1..][i - 1];
          }
        }
      }
    }
  }

  /** A phone is valid exactly when it is '+', a digit 1-9, then 1 to 14 more digits. */
  lemma PhonePatternIff(s: string)
    ensures PhonePattern(s) <==>
      && 3 <= |s| <= 16
      && s[0] == '+'
      && NonZeroDigit(s[1])
      && forall i :: 2 <= i < |s| ==> IsDigit(s[i])
  {
    if |s| >= 2 {
      DigitsBetweenIff(s[2..], 1, 14);
      if forall i :: 2 <= i < |s| ==> IsDigit(s[i]) {
        forall i | 0 <= i < |s| - 2
          ensures IsDigit(s[2..][i])
        {
          assert s[2..][i] == s[i + 2];
        }
      }
      if AllDigits(s[2..]) {
        forall i | 2 <= i < |s|
          ensures IsDigit(s[i])
        {
          assert s[i] == s[2..][i - 2];
        }
      }
    }
  }

  /** The placeholder number of the request form is a valid phone. */
  lemma PhoneExampleValid()
    ensures PhonePattern("+39123456789")
  {
    var s := "+39123456789";
    PhonePatternIff(s);
    assert forall i :: 2 <= i < |s| ==> IsDigit(s[i]);
  }

  /** The shortest valid phone has two digits. */
  lemma PhoneShortest()
    ensures PhonePattern("+12")
    ensures !PhonePattern("+3")
  {
    PhonePatternIff("+12");
  }

  /** The longest valid phone has fifteen digits. */
  lemma PhoneLongest()
    ensures PhonePattern("+123456789012345")
  {
    var s := "+123456789012345";
    PhonePatternIff(s);
    assert forall i :: 2 <= i < |s| ==> IsDigit(s[i]);
  }

  /** Sixteen digits are too many. */
  lemma PhoneTooLong()
    ensures !PhonePattern("+1234567890123456")
  {
    PhonePatternIff("+1234567890123456");
  }

  /** A leading zero, a missing '+' and an inner space are all rejected. */
  lemma PhoneRejections()
    ensures !PhonePattern("+0123456")
    ensures !PhonePattern("39123456789")
    ensures !PhonePattern("+39 123456")
  {
    PhonePatternIff("+39 123456");
    assert "+39 123456"[3] == ' ';
  }

  // ---------------------------------------------------------------------
  // The constraint set, cascaded through @Valid into every member.
  // SignPosition and Callback declare no constraints of their own.

  predicate ValidMember(m: Member) {
    && NotBlank(m.firstname)
    && NotBlank(m.lastname)
    && NotBlank(m.email)
    && NotBlank(m.phone)
    && PhoneConstraint(m.phone)
    && NotEmpty(m.signs)
  }

  /** The cascade into the members list skips null elements: only a present member is checked. */
  predicate ValidRequest(r: FirmaRequest) {
    && NotBlank(r.content)
    && NotEmpty(r.members)
    && forall i :: 0 <= i < |r.members.value| && r.members.value[i].Some? ==> ValidMember(r.members.value[i].value)
  }

  /** A failed constraint: its property path and its message. */
  datatype Violation = Violation(path: string, message: string)

  function Check(ok: bool, path: string, message: string): set<Violation> {
    if ok then {} else {Violation(path, message)}
  }

  function MemberViolations(m: Member, prefix: string): (vs: set<Violation>)
    ensures vs == {} <==> ValidMember(m)
  {
    Check(NotBlank(m.firstname), prefix + "firstname", "Firstname is required")
    + Check(NotBlank(m.lastname), prefix + "lastname", "Lastname is required")
    + Check(NotBlank(m.email), prefix + "email", "Email is required")
    + Check(NotBlank(m.phone), prefix + "phone", "Phone is required")
    + Check(PhoneConstraint(m.phone), prefix + "phone", "Phone must include international prefix starting with '+'")
    + Check(NotEmpty(m.signs), prefix + "signs", "At least one signature position is required")
  }

  /** The property path under which the member at index `i` reports its violations. */
  function MemberPath(i: nat): string {
    "members[" + NatToString(i) + "]."
  }

  /** The violations of every present member of the list, each under its own index; a null
      element reports nothing. */
  function MembersViolations(ms: seq<Option<Member>>): set<Violation> {
    set i, v | 0 <= i < |ms| && ms[i].Some? && v in MemberViolations(ms[i].value, MemberPath(i)) :: v
  }

  /** Every violated constraint of a request, as the validator reports them. */
  function Violations(r: FirmaRequest): set<Violation> {
    Check(NotBlank(r.content), "content", "Content is required")
    + Check(NotEmpty(r.members), "members", "At least one member is required")
    + (if r.members.Some? then MembersViolations(r.members.value) else {})
  }

  lemma MembersViolationsEmptyIff(ms: seq<Option<Member>>)
    ensures MembersViolations(ms) == {} <==> forall i :: 0 <= i < |ms| && ms[i].Some? ==> ValidMember(ms[i].value)
  {
    if exists i :: 0 <= i < |ms| && ms[i].Some? && !ValidMember(ms[i].value) {
      var i :| 0 <= i < |ms| && ms[i].Some? && !ValidMember(ms[i].value);
      assert MemberViolations(ms[i].value, MemberPath(i)) != {};
      var v :| v in MemberViolations(ms[i].value, MemberPath(i));
      assert v in MembersViolations(ms);
    }
  }

  /** Null members are invisible to the validator: a request whose only members are null is
      refused for nothing but its content. */
  lemma NullMembersAccepted(r: FirmaRequest)
    requires r.members.Some? && |r.members.value| > 0
    requires forall i :: 0 <= i < |r.members.value| ==> r.members.value[i].None?
    ensures Violations(r) == Check(NotBlank(r.content), "content", "Content is required")
    ensures NotBlank(r.content) ==> ValidRequest(r)
  {
    MembersViolationsEmptyIff(r.members.value);
  }

  /** The validator reports nothing exactly when the request satisfies every constraint. */
  lemma ValidIffNoViolations(r: FirmaRequest)
    ensures Violations(r) == {} <==> ValidRequest(r)
  {
    if r.members.Some? {
      MembersViolationsEmptyIff(r.members.value);
    }
  }

  const PhoneRequired := Violation("phone", "Phone is required")
  const PhoneMalformed := Violation("phone", "Phone must include international prefix starting with '+'")

  /** Each broken phone constraint is reported under the member's "phone" path. */
  lemma BrokenPhoneReported(m: Member, prefix: string)
    ensures !NotBlank(m.phone) ==> Violation(prefix + "phone", PhoneRequired.message) in MemberViolations(m, prefix)
    ensures !PhoneConstraint(m.phone) ==> Violation(prefix + "phone", PhoneMalformed.message) in MemberViolations(m, prefix)
  {
  }

  /** A blank phone breaks both of its constraints at once. */
  lemma BlankPhoneViolations(m: Member)
    requires m.phone == Some(" ")
    ensures PhoneRequired in MemberViolations(m, "") && PhoneMalformed in MemberViolations(m, "")
  {
    assert !NotBlank(m.phone);
    assert !PhoneConstraint(m.phone) by {
      assert |m.phone.value| == 1;
    }
    BrokenPhoneReported(m, "");
    assert "" + "phone" == "phone";
  }

  /** A null phone breaks only @NotBlank: the pattern constraint accepts null. */
  lemma NullPhoneViolations(m: Member)
    requires m.phone.None?
    ensures PhoneRequired in MemberViolations(m, "") && PhoneMalformed !in MemberViolations(m, "")
  {
    BrokenPhoneReported(m, "");
    assert "" + "phone" == "phone";
    assert PhoneConstraint(m.phone);
  }

  // ---------------------------------------------------------------------
  // The filename used when the caller gives none.

  const FilenamePrefix := "fes_"
  const FilenameSuffix := ".pdf"

  /** `"fes_" + System.currentTimeMillis() + ".pdf"`. */
  function DefaultFilename(millis: nat): string {
    FilenamePrefix + NatToString(millis) + FilenameSuffix
  }

  /** The default filename is "fes_", the decimal milliseconds, ".pdf"; the milliseconds read back from it. */
  lemma DefaultFilenameShape(millis: nat)
    ensures var f := DefaultFilename(millis);
      && |f| > |FilenamePrefix| + |FilenameSuffix|
      && f[..4] == "fes_"
      && f[|f| - 4..] == ".pdf"
      && AllDigits(f[4..|f| - 4])
      && ParseNat(f[4..|f| - 4]) == millis
  {
    ParseNatToString(millis);
    var f := DefaultFilename(millis);
    assert f[4..|f| - 4] == NatToString(millis);
  }

  /** Requests created at different milliseconds get different default filenames. */
  lemma DefaultFilenameInjective(m: nat, n: nat)
    requires DefaultFilename(m) == DefaultFilename(n)
    ensures m == n
  {
    DefaultFilenameShape(m);
    DefaultFilenameShape(n);
  }
}
