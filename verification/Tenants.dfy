/** Tenant identities `project[/domain]` (crates/blut-types/src/tenant.rs). */
module Tenants {
  import opened Options
  import opened Strings

  datatype Tenant = Tenant(project: string, domain: Option<string>)

  predicate IsIdentChar(c: char) {
    'a' <= c <= 'z' || 'A' <= c <= 'Z' || '0' <= c <= '9' || c == '_' || c == '.' || c == '-'
  }

  /** Non-empty, identifier characters only. */
  predicate IsSafeIdent(s: string) { s != "" && forall i :: 0 <= i < |s| ==> IsIdentChar(s[i]) }

  /** A tenant segment may hold dots, but not at either end. */
  predicate IsSegment(s: string) { IsSafeIdent(s) && s[0] != '.' && s[|s| - 1] != '.' }

  /** Split at the first slash, if there is one. */
  function SplitSlash(s: string): (string, Option<string>) {
    if s == "" then ("", None)
    else if s[0] == '/' then ("", Some(s[1..]))
    else
      var (a, b) := SplitSlash(s[1..]);
      ([s[0]] + a, b)
  }

  function Parse(s: string): Option<Tenant> {
    var t := Trim(s);
    if t == "" then Some(Tenant("default", None))
    else
      var (project, domain) := SplitSlash(t);
      if !IsSegment(project) then None
      else if domain.None? then Some(Tenant(project, None))
      else if IsSegment(domain.value) then Some(Tenant(project, domain))
      else None
  }

  predicate IsRestricted(t: Tenant) {
    Lower(t.project) == "clinical" || Lower(t.project) == "restricted"
  }

  // ---- canonical spellings ----

  function Render(t: Tenant): string {
    if t.domain.Some? then t.project + "/" + t.domain.value else t.project
  }

  predicate WellFormed(t: Tenant) {
    IsSegment(t.project) && (t.domain.Some? ==> IsSegment(t.domain.value))
  }

  lemma {:induction false} SplitWithout(a: string)
    requires '/' !in a
    ensures SplitSlash(a) == (a, None)
  {
    if a != "" {
      SplitWithout(a[1..]);
      assert a == [a[0]] + a[1..];
    }
  }

  lemma {:induction false} SplitWith(a: string, b: string)
    requires '/' !in a
    ensures SplitSlash(a + "/" + b) == (a, Some(b))
  {
    var s := a + "/" + b;
    if a == "" {
      assert s[1..] == b;
    } else {
      SplitWith(a[1..], b);
      assert s[1..] == a[1..] + "/" + b && a == [a[0]] + a[1..];
    }
  }

  /** Splitting loses nothing. */
  lemma {:induction false} SplitJoins(s: string)
    ensures var (a, b) := SplitSlash(s); s == if b.Some? then a + "/" + b.value else a
  {
    if s != "" {
      if s[0] == '/' {
        assert s == "/" + s[1..];
      } else {
        SplitJoins(s[1..]);
        assert s == [s[0]] + s[1..];
      }
    }
  }

  lemma TrimSolid(s: string)
    requires s != "" && !IsSpace(s[0]) && !IsSpace(s[|s| - 1])
    ensures Trim(s) == s
  {
  }

  lemma {:induction false} TrimPadded(s: string)
    ensures Trim(s + " ") == Trim(s)
  {
    assert IsSpace(' ');
    hide IsSpace;
    var p := s + " ";
    if s == "" {
      assert p[1..] == "";
    } else if IsSpace(s[0]) {
      assert p[1..] == s[1..] + " ";
      TrimPadded(s[1..]);
    } else {
      assert p[..|p| - 1] == s;
    }
  }

  lemma SegmentIsSolid(s: string)
    requires IsSegment(s)
    ensures s != "" && '/' !in s && !IsSpace(s[0]) && !IsSpace(s[|s| - 1])
  {
    forall i | 0 <= i < |s| ensures s[i] != '/' { assert IsIdentChar(s[i]); }
    assert IsIdentChar(s[0]) && IsIdentChar(s[|s| - 1]);
  }

  /** A tenant's rendering parses back to it. */
  lemma ParseInverts(t: Tenant)
    requires WellFormed(t)
    ensures Parse(Render(t)) == Some(t)
  {
    hide Trim, SplitSlash, IsSafeIdent, IsSpace;
    SegmentIsSolid(t.project);
    var s := Render(t);
    if t.domain.Some? {
      SegmentIsSolid(t.domain.value);
      SplitWith(t.project, t.domain.value);
      assert s[|s| - 1] == t.domain.value[|t.domain.value| - 1];
    } else {
      SplitWithout(t.project);
    }
    TrimSolid(s);
  }

  /** An accepted spelling is the canonical one if and only if it is not empty and
      has no space around it. */
  lemma CanonicalIff(s: string)
    requires Parse(s).Some?
    ensures Render(Parse(s).value) == s <==> s != "" && Trim(s) == s
    ensures WellFormed(Parse(s).value)
  {
    hide Trim, SplitSlash, IsSafeIdent;
    if Trim(s) == "" {
      TrimSolid("default");
      DefaultIsSegment();
    } else {
      SplitJoins(Trim(s));
    }
  }

  lemma DefaultIsSegment()
    ensures IsSegment("default")
  {
  }

  lemma ClinicalIsSegment()
    ensures IsSegment("clinical")
  {
  }

  lemma ClinicalIsRestricted()
    ensures IsRestricted(Tenant("clinical", None)) && !IsRestricted(Tenant("default", None))
  {
    hide Lower;
    assert Lower("clinical") == "clinical";
    assert Lower("default")[0] == 'd';
  }

  /** A spelling is accepted exactly when, trimmed, it is empty or renders a tenant of
      one or two segments; the tenant is then that one, or the default. */
  lemma ParseIff(s: string, t: Tenant)
    ensures Parse(s) == Some(t) <==>
              if Trim(s) == "" then t == Tenant("default", None) else WellFormed(t) && Render(t) == Trim(s)
  {
    hide Trim, SplitSlash, IsSegment;
    if Trim(s) != "" {
      SplitJoins(Trim(s));
      if WellFormed(t) && Render(t) == Trim(s) { SplitOfRender(t); }
    }
  }

  lemma SplitOfRender(t: Tenant)
    requires WellFormed(t)
    ensures SplitSlash(Render(t)) == (t.project, t.domain)
  {
    hide SplitSlash, IsSegment;
    SegmentIsSolid(t.project);
    if t.domain.Some? { SplitWith(t.project, t.domain.value); } else { SplitWithout(t.project); }
  }

  /** A segment is ASCII letters, digits, underscores, dashes and inner dots, which
      makes it safe as a path component. */
  lemma SegmentIff(s: string)
    ensures IsSegment(s) <==>
              && s != "" && s[0] != '.' && s[|s| - 1] != '.'
              && forall i :: 0 <= i < |s| ==>
                   var n := s[i] as int;
                   48 <= n < 58 || 65 <= n < 91 || 97 <= n < 123 || n == 95 || n == 45 || n == 46
    ensures IsSegment(s) ==> s != "." && s != ".." && '/' !in s && '\\' !in s && ' ' !in s && '@' !in s
  {
    hide IsIdentChar;
    forall i | 0 <= i < |s| { IdentCode(s[i]); }
  }

  lemma IdentCode(c: char)
    ensures var n := c as int;
            IsIdentChar(c) <==>
              48 <= n < 58 || 65 <= n < 91 || 97 <= n < 123 || n == 95 || n == 45 || n == 46
  {
  }

  /** Restricted, in whatever capitals. */
  lemma RestrictedIff(t: Tenant)
    ensures IsRestricted(t) <==> SameWord(t.project, "clinical") || SameWord(t.project, "restricted")
  {
    hide Lower;
    LowerIff(t.project, "clinical");
    LowerIff(t.project, "restricted");
    assert Lower("clinical") == "clinical" && Lower("restricted") == "restricted";
  }

  predicate SameWord(a: string, b: string) {
    |a| == |b| && forall i :: 0 <= i < |a| ==> SameLetter(a[i], b[i])
  }

  /** Every accepted spelling has another one, with the same tenant. */
  lemma PaddedSpelling(s: string)
    ensures Parse(s + " ") == Parse(s) && s + " " != s
  {
    hide Trim, SplitSlash, IsSegment;
    TrimPadded(s);
    assert |s + " "| == |s| + 1;
  }
}
