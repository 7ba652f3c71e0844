/** The login screen: the empty-field guard and the role the simulated
    backend assigns from the email address. */
module Login {
  import opened Roles

  /** What a press on LOGIN leads to: an error alert and nothing else, or
      navigation to the dashboard with a role. `loadingStates` lists the
      values assigned to the loading flag, in order. */
  datatype LoginOutcome =
    | LoginRejected
    | NavigateToDashboard(role: Role, loadingStates: seq<bool>)

  /** Lower-case one character (ASCII letters only). */
  function LowerChar(c: char): char
  {
    if 'A' <= c <= 'Z' then (c as int + 32) as char else c
  }

  /** `toLowerCase` on a string. */
  function LowerString(s: string): (r: string)
    ensures |r| == |s|
    ensures forall i :: 0 <= i < |s| ==> r[i] == LowerChar(s[i])
  {
    if s == [] then [] else [LowerChar(s[0])] + LowerString(s[1..])
  }

  /** `includes`: `sub` starts at some position of `s`. */
  function Contains(s: string, sub: string): bool
  {
    sub <= s || (s != [] && Contains(s[1..], sub))
  }

  /** `sub` occurs in `s` starting at index `i`. */
  ghost predicate OccursAt(s: string, sub: string, i: int)
  {
    0 <= i <= |s| - |sub| && s[i..i + |sub|] == sub
  }

  /** The reference meaning of substring search: an index where `sub` occurs. */
  ghost predicate Occurs(s: string, sub: string)
  {
    exists i :: OccursAt(s, sub, i)
  }

  /** Dropping the first character shifts every occurrence one to the left. */
  lemma ShiftOccurs(s: string, sub: string, i: int)
    requires s != [] && 0 <= i
    ensures OccursAt(s[1..], sub, i) <==> OccursAt(s, sub, i + 1)
  {
    if 0 <= i <= |s| - 1 - |sub| {
      assert s[1..][i..i + |sub|] == s[i + 1..i + 1 + |sub|];
    }
  }

  lemma {:induction false} ContainsIffOccurs(s: string, sub: string)
    ensures Contains(s, sub) <==> Occurs(s, sub)
  {
    if sub <= s {
      assert OccursAt(s, sub, 0);
    } else if s == [] {
    } else {
      ContainsIffOccurs(s[1..], sub);
      if Occurs(s[1..], sub) {
        var i :| OccursAt(s[1..], sub, i);
        ShiftOccurs(s, sub, i);
        assert OccursAt(s, sub, i + 1);
      }
      if Occurs(s, sub) {
        var i :| OccursAt(s, sub, i);
        assert s[..|sub|] == s[0..|sub|];
        assert i > 0;
        ShiftOccurs(s, sub, i - 1);
        assert OccursAt(s[1..], sub, i - 1);
      }
    }
  }

  /** The role: `student` if the lower-cased email contains "student", else
      `admin` if it contains "admin", else `teacher`. */
  function DeriveRole(email: string): (r: Role)
    ensures r == Student <==> Occurs(LowerString(email), "student")
    ensures r == Admin <==>
      !Occurs(LowerString(email), "student") && Occurs(LowerString(email), "admin")
    ensures r == Teacher <==>
      !Occurs(LowerString(email), "student") && !Occurs(LowerString(email), "admin")
  {
    var lower := LowerString(email);
    ContainsIffOccurs(lower, "student");
    ContainsIffOccurs(lower, "admin");
    if Contains(lower, "student") then Student
    else if Contains(lower, "admin") then Admin
    else Teacher
  }

  /** The LOGIN handler. */
  function HandleLogin(email: string, password: string): (o: LoginOutcome)
    ensures o.LoginRejected? <==> email == "" || password == ""
    ensures o.NavigateToDashboard? ==>
      o.role == DeriveRole(email) && o.loadingStates == [true, false]
  {
    if email == "" || password == "" then LoginRejected
    else NavigateToDashboard(DeriveRole(email), [true, false])
  }

  /** Lower-casing twice is lower-casing once. */
  lemma LowerStringIdempotent(s: string)
    ensures LowerString(LowerString(s)) == LowerString(s)
  {
  }

  /** The role ignores case: an email and its lower-case form get the same
      role. */
  lemma RoleIgnoresCase(email: string)
    ensures DeriveRole(LowerString(email)) == DeriveRole(email)
  {
    LowerStringIdempotent(email);
  }

  /** An email with both words is a student's: "student" is tested first.
      The email is a parameter fixed by the precondition rather than a
      literal in the ensures, because Dafny unfolds functions applied to
      literals without bound, and that makes this proof run out of resource. */
  lemma StudentOutranksAdmin(email: string)
    requires email == "Admin.Student"
    ensures DeriveRole(email) == Student
  {
    var lower := LowerString(email);
    assert lower == "admin.student";
    assert OccursAt(lower, "student", 6);
  }

  /** An upper-case "ADMIN" still makes an administrator. The email is a
      parameter fixed by the precondition, for the same reason as in
      `StudentOutranksAdmin`. */
  lemma UpperCaseAdmin(email: string)
    requires email == "ADMIN"
    ensures DeriveRole(email) == Admin
  {
    var lower := LowerString(email);
    assert lower == "admin";
    assert OccursAt(lower, "admin", 0);
    assert !Occurs(lower, "student");
  }

  /** Every accepted login names one of the three dashboard roles. */
  lemma LoginRoleName(email: string, password: string)
    requires email != "" && password != ""
    ensures HandleLogin(email, password).role.Name() in {"teacher", "student", "admin"}
  {
  }
}
