/** The domain validator of internal/validator/domain.go.

    The pattern `^(?:[a-zA-Z0-9-]+\.)+[a-zA-Z]{2,}$` is specified by its
    language (InPattern: one or more labels each followed by a dot, then a
    final label of at least two ASCII letters) and decided by MatchesPattern,
    which splits the string at its last dot; the two are proved equal. */
module Domain {
  import opened Wrappers

  datatype DomainError =
    | Empty          // "domain cannot be empty"
    | HasScheme      // "domain must not include scheme"
    | InvalidFormat  // "invalid domain format"

  predicate IsLetter(c: char) { 'a' <= c <= 'z' || 'A' <= c <= 'Z' }

  predicate IsDigit(c: char) { '0' <= c <= '9' }

  /** The character class [a-zA-Z0-9-]. */
  predicate IsLabelChar(c: char) { IsLetter(c) || IsDigit(c) || c == '-' }

  /** [a-zA-Z0-9-]+ */
  predicate IsLabel(s: string) {
    |s| > 0 && forall i :: 0 <= i < |s| ==> IsLabelChar(s[i])
  }

  /** [a-zA-Z]{2,} */
  predicate IsTld(s: string) {
    |s| >= 2 && forall i :: 0 <= i < |s| ==> IsLetter(s[i])
  }

  /** Every label followed by a dot, concatenated. */
  function DotJoin(labels: seq<string>): (r: string)
    ensures labels != [] ==> |r| > 0 && r[|r| - 1] == '.'
  {
    if labels == [] then "" else labels[0] + "." + DotJoin(labels[1..])
  }

  /** `s` is derived from the pattern with these labels and this final label. */
  ghost predicate Derives(s: string, labels: seq<string>, tld: string) {
    && |labels| >= 1
    && (forall i :: 0 <= i < |labels| ==> IsLabel(labels[i]))
    && IsTld(tld)
    && s == DotJoin(labels) + tld
  }

  /** The language of the pattern. */
  ghost predicate InPattern(s: string)
    ensures InPattern(s) ==> |s| >= 3 && IsLetter(s[|s| - 1]) && IsLetter(s[|s| - 2])
  {
    exists labels: seq<string>, tld: string :: Derives(s, labels, tld)
  }

  /** strings.Contains(s, t) */
  predicate Contains(s: string, t: string) {
    exists i | 0 <= i <= |s| - |t| :: OccursAt(s, t, i)
  }

  /** `t` occurs in `s` at position `i`. */
  predicate OccursAt(s: string, t: string, i: int) {
    0 <= i && i + |t| <= |s| && s[i..i + |t|] == t
  }

  /** The position of the last dot in `s`, if any. */
  function LastDot(s: string): (k: Option<nat>)
    ensures k.Some? ==> k.value < |s| && s[k.value] == '.'
    ensures k.Some? ==> forall j :: k.value < j < |s| ==> s[j] != '.'
    ensures k.None? ==> forall j :: 0 <= j < |s| ==> s[j] != '.'
  {
    if |s| == 0 then None
    else if s[|s| - 1] == '.' then Some(|s| - 1)
    else LastDot(s[..|s| - 1])
  }

  /** The position of the first dot in `s`, if any. */
  function FirstDot(s: string): (k: Option<nat>)
    ensures k.Some? ==> k.value < |s| && s[k.value] == '.'
    ensures k.Some? ==> forall j :: 0 <= j < k.value ==> s[j] != '.'
    ensures k.None? ==> forall j :: 0 <= j < |s| ==> s[j] != '.'
  {
    if |s| == 0 then None
    else if s[0] == '.' then Some(0)
    else match FirstDot(s[1..])
      case None => None
      case Some(k) => Some(k + 1)
  }

  /** Labels separated (not followed) by single dots: label ("." label)*. */
  predicate WellDotted(q: string) {
    && |q| > 0
    && q[0] != '.'
    && q[|q| - 1] != '.'
    && (forall i :: 0 <= i < |q| ==> IsLabelChar(q[i]) || q[i] == '.')
    && (forall i :: 0 <= i < |q| - 1 ==> q[i] == '.' ==> q[i + 1] != '.')
  }

  /** regex.MatchString on the domain pattern, deciding by the last dot. */
  predicate MatchesPattern(s: string)
    ensures MatchesPattern(s) ==> |s| >= 4 && IsLabelChar(s[0]) && IsLetter(s[|s| - 1])
  {
    match LastDot(s)
    case None => false
    case Some(k) => WellDotted(s[..k]) && IsTld(s[k + 1..])
  }

  /** ValidateDomain: the three checks in the source's order. */
  function ValidateDomain(domain: string): (r: Outcome<DomainError>)
    ensures domain == "" <==> r == Fail(Empty)
    ensures r == Fail(HasScheme) <==> domain != "" && Contains(domain, "://")
    ensures r.Pass? ==> MatchesPattern(domain)
  {
    if domain == "" then Fail(Empty)
    else if Contains(domain, "://") then Fail(HasScheme)
    else if !MatchesPattern(domain) then Fail(InvalidFormat)
    else Pass
  }

  // ---------------------------------------------------------------------
  // The matcher decides the language of the pattern

  /** Splitting at every dot. */
  function SplitDots(q: string): (labels: seq<string>)
    decreases |q|
  {
    match FirstDot(q)
    case None => [q]
    case Some(i) => [q[..i]] + SplitDots(q[i + 1..])
  }

  lemma {:induction false} SplitDotsDerives(q: string)
    requires WellDotted(q)
    ensures |SplitDots(q)| >= 1
    ensures forall i :: 0 <= i < |SplitDots(q)| ==> IsLabel(SplitDots(q)[i])
    ensures DotJoin(SplitDots(q)) == q + "."
    decreases |q|
  {
    match FirstDot(q)
    case None =>
      assert SplitDots(q) == [q];
      assert IsLabel(q);
      assert DotJoin([q]) == q + "." + DotJoin([]);
    case Some(i) =>
      var head, tail := q[..i], q[i + 1..];
      assert q == head + "." + tail;
      assert i > 0;
      assert IsLabel(head);
      assert i < |q| - 1;
      assert tail[0] == q[i + 1];
      assert WellDotted(tail) by {
        forall j | 0 <= j < |tail| - 1 && tail[j] == '.'
          ensures tail[j + 1] != '.'
        {
          assert tail[j] == q[i + 1 + j] && tail[j + 1] == q[i + 2 + j];
        }
      }
      SplitDotsDerives(tail);
      var labels := SplitDots(q);
      assert labels == [head] + SplitDots(tail);
      assert labels[1..] == SplitDots(tail);
      assert DotJoin(labels) == head + "." + (tail + ".");
  }

  /** A label, a dot and a well-dotted string make a well-dotted string. */
  lemma WellDottedPrepend(l: string, q: string)
    requires IsLabel(l) && WellDotted(q)
    ensures WellDotted(l + "." + q)
  {
    var p := l + "." + q;
    assert p[0] == l[0];
    forall i | 0 <= i < |p| ensures IsLabelChar(p[i]) || p[i] == '.' {
      if i < |l| { assert p[i] == l[i]; }
      else if i > |l| { assert p[i] == q[i - |l| - 1]; }
    }
    forall i | 0 <= i < |p| - 1 && p[i] == '.' ensures p[i + 1] != '.' {
      if i == |l| { assert p[i + 1] == q[0]; }
      else { assert p[i] == q[i - |l| - 1] && p[i + 1] == q[i - |l|]; }
    }
  }

  lemma {:induction false} DotJoinWellDotted(labels: seq<string>)
    requires |labels| >= 1
    requires forall i :: 0 <= i < |labels| ==> IsLabel(labels[i])
    ensures var p := DotJoin(labels); WellDotted(p[..|p| - 1])
  {
    var p := DotJoin(labels);
    var l := labels[0];
    if |labels| == 1 {
      assert labels[1..] == [];
      assert DotJoin(labels[1..]) == "";
      assert p == l + ".";
      assert p[..|p| - 1] == l;
    } else {
      var rest := labels[1..];
      assert forall i :: 0 <= i < |rest| ==> IsLabel(rest[i]) by {
        forall i | 0 <= i < |rest| ensures IsLabel(rest[i]) { assert rest[i] == labels[i + 1]; }
      }
      DotJoinWellDotted(rest);
      var r := DotJoin(rest);
      assert p == l + "." + r;
      assert p[..|p| - 1] == l + "." + r[..|r| - 1];
      WellDottedPrepend(l, r[..|r| - 1]);
    }
  }

  /** Every derivation splits at the dot that ends the last label. */
  lemma DerivesMatches(s: string, labels: seq<string>, tld: string)
    requires Derives(s, labels, tld)
    ensures MatchesPattern(s)
  {
    var p := DotJoin(labels);
    var k := |p| - 1;
    assert s[k] == '.';
    forall j | k < j < |s| ensures s[j] != '.' {
      assert s[j] == tld[j - |p|];
    }
    assert LastDot(s) == Some(k);
    DotJoinWellDotted(labels);
    assert s[..k] == p[..k];
    assert s[k + 1..] == tld;
  }

  /** The matcher accepts exactly the language of the pattern. */
  lemma MatchesPatternIff(s: string)
    ensures MatchesPattern(s) <==> InPattern(s)
  {
    if MatchesPattern(s) {
      var k := LastDot(s).value;
      var q, tld := s[..k], s[k + 1..];
      SplitDotsDerives(q);
      assert s == q + "." + tld;
      assert Derives(s, SplitDots(q), tld);
    }
    if InPattern(s) {
      var labels, tld :| Derives(s, labels, tld);
      DerivesMatches(s, labels, tld);
    }
  }

  // ---------------------------------------------------------------------
  // Properties of ValidateDomain

  /** Every accepted string lies in the pattern's character set. */
  lemma AcceptedCharset(s: string)
    requires MatchesPattern(s)
    ensures forall i :: 0 <= i < |s| ==> IsLabelChar(s[i]) || s[i] == '.'
  {
    var k := LastDot(s).value;
    forall i | 0 <= i < |s| ensures IsLabelChar(s[i]) || s[i] == '.' {
      if i < k { assert s[i] == s[..k][i]; }
      else if i > k { assert s[i] == s[k + 1..][i - k - 1]; }
    }
  }

  /** The scheme check never decides acceptance: ':' cannot match the pattern. */
  lemma SchemeNeverMatches(s: string)
    requires Contains(s, "://")
    ensures !MatchesPattern(s)
  {
    var i :| 0 <= i <= |s| - 3 && OccursAt(s, "://", i);
    assert s[i] == ':';
    if MatchesPattern(s) {
      AcceptedCharset(s);
    }
  }

  /** ValidateDomain accepts exactly the language of the pattern. */
  lemma ValidateDomainAccepts(s: string)
    ensures ValidateDomain(s).Pass? <==> InPattern(s)
    ensures ValidateDomain(s).Pass? <==> MatchesPattern(s)
  {
    MatchesPatternIff(s);
    if Contains(s, "://") {
      SchemeNeverMatches(s);
    }
    if s == "" {
      assert LastDot(s).None?;
    }
  }

  /** Shape of an accepted domain: a dot, no dot at either end, no empty label. */
  lemma AcceptedShape(s: string)
    requires ValidateDomain(s).Pass?
    ensures exists i :: 0 <= i < |s| && s[i] == '.'
    ensures s[0] != '.' && s[|s| - 1] != '.'
    ensures forall i :: 0 <= i < |s| - 1 && s[i] == '.' ==> s[i + 1] != '.'
  {
    var k := LastDot(s).value;
    var q, tld := s[..k], s[k + 1..];
    assert s == q + "." + tld;
    assert s[0] == q[0];
    assert s[|s| - 1] == tld[|tld| - 1];
    forall i | 0 <= i < |s| - 1 && s[i] == '.' ensures s[i + 1] != '.' {
      if i < k - 1 { assert s[i] == q[i] && s[i + 1] == q[i + 1]; }
      else if i == k { assert s[i + 1] == tld[0]; }
    }
  }

  /** The final label of an accepted domain is two or more letters: no digit, no hyphen. */
  lemma AcceptedFinalLabel(s: string) returns (k: nat)
    requires ValidateDomain(s).Pass?
    ensures k < |s| && s[k] == '.'
    ensures forall j :: k < j < |s| ==> s[j] != '.'
    ensures IsTld(s[k + 1..])
    ensures forall j :: k < j < |s| ==> !IsDigit(s[j]) && s[j] != '-'
  {
    k := LastDot(s).value;
    forall j | k < j < |s| ensures IsLetter(s[j]) {
      assert s[j] == s[k + 1..][j - k - 1];
    }
  }


  /** One label, a dot and a final label form an accepted domain. */
  lemma AcceptsOneLabel(a: string, tld: string)
    requires IsLabel(a) && IsTld(tld)
    ensures ValidateDomain(a + "." + tld).Pass?
  {
    assert DotJoin([a]) == a + "." + DotJoin([]);
    assert Derives(a + "." + tld, [a], tld);
    ValidateDomainAccepts(a + "." + tld);
  }

  /** Two labels and a final label form an accepted domain. */
  lemma AcceptsTwoLabels(a: string, b: string, tld: string)
    requires IsLabel(a) && IsLabel(b) && IsTld(tld)
    ensures ValidateDomain(a + "." + b + "." + tld).Pass?
  {
    var s := a + "." + b + "." + tld;
    assert DotJoin([b]) == b + "." + DotJoin([]);
    assert [a, b][1..] == [b];
    assert DotJoin([a, b]) == a + "." + (b + ".");
    assert Derives(s, [a, b], tld);
    ValidateDomainAccepts(s);
  }

  /** The accepted vectors of internal/validator/domain_test.go. */
  lemma AcceptedVectors()
    ensures ValidateDomain("example.com").Pass?
    ensures ValidateDomain("www.example.com").Pass?
    ensures ValidateDomain("sub.domain.co").Pass?
  {
    AcceptsExampleCom();
    AcceptsWwwExampleCom();
    AcceptsSubDomainCo();
  }

  lemma AcceptsExampleCom()
    ensures ValidateDomain("example.com").Pass?
  {
    assert IsLabel("example") && IsTld("com");
    AcceptsOneLabel("example", "com");
    assert "example" + "." + "com" == "example.com";
  }

  lemma AcceptsWwwExampleCom()
    ensures ValidateDomain("www.example.com").Pass?
  {
    assert IsLabel("www") && IsLabel("example") && IsTld("com");
    AcceptsTwoLabels("www", "example", "com");
    assert "www" + "." + "example" + "." + "com" == "www.example.com";
  }

  lemma AcceptsSubDomainCo()
    ensures ValidateDomain("sub.domain.co").Pass?
  {
    assert IsLabel("sub") && IsLabel("domain") && IsTld("co");
    AcceptsTwoLabels("sub", "domain", "co");
    assert "sub" + "." + "domain" + "." + "co" == "sub.domain.co";
  }

  /** The rejected vectors of internal/validator/domain_test.go that carry a scheme or are empty. */
  lemma RejectedSchemeVectors()
    ensures ValidateDomain("") == Fail(Empty)
    ensures ValidateDomain("http://example.com") == Fail(HasScheme)
    ensures ValidateDomain("https://example.com") == Fail(HasScheme)
  {
    assert OccursAt("http://example.com", "://", 4);
    assert OccursAt("https://example.com", "://", 5);
  }

  /** The rejected vectors of internal/validator/domain_test.go that fail the pattern. */
  lemma RejectedFormatVectors()
    ensures ValidateDomain("example") == Fail(InvalidFormat)
    ensures ValidateDomain("example.") == Fail(InvalidFormat)
    ensures ValidateDomain(".com") == Fail(InvalidFormat)
    ensures ValidateDomain("exa_mple.com") == Fail(InvalidFormat)
  {
    RejectedByShape("example");
    RejectedByShape("example.");
    RejectedByShape(".com");
    var s := "exa_mple.com";
    NoSchemeIn(s);
    assert s[3] == '_';
    if MatchesPattern(s) { AcceptedCharset(s); }
  }

  /** A literal without ':' contains no scheme separator. */
  lemma NoSchemeIn(s: string)
    requires forall i :: 0 <= i < |s| ==> s[i] != ':'
    ensures !Contains(s, "://")
  {
    forall i | 0 <= i <= |s| - 3 ensures !OccursAt(s, "://", i) {
      assert s[i] != ':';
    }
  }

  lemma RejectedByShape(s: string)
    requires s == "example" || s == "example." || s == ".com"
    ensures ValidateDomain(s) == Fail(InvalidFormat)
  {
    NoSchemeIn(s);
    if MatchesPattern(s) {
      ValidateDomainAccepts(s);
      AcceptedShape(s);
    }
  }
}
