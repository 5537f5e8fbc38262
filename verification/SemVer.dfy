/**
  Version order (update.go): parsing release tags, comparing them, and how far the order
  agrees with section 11 of Semantic Versioning 2.0.0.
*/
module SemVer {
  import opened Options
  import opened Text

  const MAX_INT := 0x7FFF_FFFF_FFFF_FFFF

  datatype Version = Version(major: nat, minor: nat, patch: nat, pre: string)

  // --------------------------------------------------------------- library pieces

  /** strconv.Atoi where int has 64 bits. */
  function Atoi(s: string): Option<int> {
    var negative := s != "" && s[0] == '-';
    var body := if s != "" && (s[0] == '-' || s[0] == '+') then s[1..] else s;
    if !AllDigits(body) then None
    else
      var digits: int := Value(body);
      var n := if negative then -digits else digits;
      if -MAX_INT - 1 <= n <= MAX_INT then Some(n) else None
  }

  /** strings.IndexByte, with the length for "absent". */
  function IndexOf(s: string, c: char): (i: nat)
    ensures i <= |s| && (i < |s| ==> s[i] == c) && c !in s[..i]
  {
    if s == "" || s[0] == c then 0 else 1 + IndexOf(s[1..], c)
  }

  // ----------------------------------------------------------------------- parsing

  /** A part of the version core: a decimal number that fits, leading zeros allowed. */
  function Part(p: string): Option<nat> {
    match Atoi(p)
    case Some(n) => if n < 0 then None else Some(n)
    case None => None
  }

  function Core(parts: seq<string>): Option<seq<nat>> {
    if parts == [] then Some([])
    else match (Core(parts[..|parts| - 1]), Part(parts[|parts| - 1]))
      case (Some(ns), Some(n)) => Some(ns + [n])
      case _ => None
  }

  lemma {:induction false} CoreAt(parts: seq<string>, k: nat)
    requires k < |parts|
    ensures Part(parts[k]).None? ==> Core(parts).None?
  {
    if k < |parts| - 1 { CoreAt(parts[..|parts| - 1], k); }
  }

  function Pick(ns: seq<nat>, i: nat): nat { if i < |ns| then ns[i] else 0 }

  /** Specification of parseSemver. */
  function Parse(tag: string): Option<Version> {
    var t := TrimSpace(tag);
    var u := if t != "" && t[0] == 'v' then t[1..] else t;
    var w := u[..IndexOf(u, '+')];
    var dash := IndexOf(w, '-');
    var parts := Split(w[..dash], '.');
    if |parts| > 3 then None
    else match Core(parts)
      case None => None
      case Some(ns) => Some(Version(Pick(ns, 0), Pick(ns, 1), Pick(ns, 2), if dash < |w| then w[dash + 1..] else ""))
  }

  method ParseSemver(tag: string) returns (r: Option<Version>)
    ensures r == Parse(tag)
  {
    hide Split, TrimSpace, IndexOf, Atoi;
    var s := TrimSpace(tag);
    if s != "" && s[0] == 'v' { s := s[1..]; }
    var i := IndexOf(s, '+');
    s := s[..i];
    var pre := "";
    i := IndexOf(s, '-');
    ghost var w := s;
    if i < |s| {
      pre := s[i + 1..];
      s := s[..i];
    } else {
      assert s[..i] == s;
    }
    var parts := Split(s, '.');
    if |parts| > 3 { return None; }
    var nums: seq<nat> := [];
    var k := 0;
    while k < |parts|
      invariant k <= |parts| && Core(parts[..k]) == Some(nums) && |nums| == k
    {
      assert parts[..k + 1][..k] == parts[..k];
      var n := Atoi(parts[k]);
      if n.None? || n.value < 0 {
        CoreAt(parts, k);
        return None;
      }
      nums := nums + [n.value];
      k := k + 1;
    }
    assert parts[..|parts|] == parts;
    r := Some(Version(Pick(nums, 0), Pick(nums, 1), Pick(nums, 2), pre));
  }

  // -------------------------------------------------------------------- comparing

  /** What an identifier of a pre-release counts as. */
  datatype Ident = Number(n: nat) | Word(s: string)

  /** parsePreIdentifier. */
  function ParsePreIdentifier(s: string): Ident {
    match Atoi(s)
    case Some(n) => if n < 0 || (s[0] == '0' && |s| > 1) then Word(s) else Number(n)
    case None => Word(s)
  }

  function CmpInt(a: int, b: int): int { if a < b then -1 else if a > b then 1 else 0 }

  function CmpIdent(a: Ident, b: Ident): int {
    match (a, b)
    case (Number(m), Number(n)) => CmpInt(m, n)
    case (Number(_), Word(_)) => -1
    case (Word(_), Number(_)) => 1
    case (Word(s), Word(t)) => if s == t then 0 else if Less(s, t) then -1 else 1
  }

  /** Identifier by identifier; if one list is a prefix of the other, the longer is higher. */
  function CmpIdents(a: seq<string>, b: seq<string>): int {
    if a == [] || b == [] then CmpInt(|a|, |b|)
    else
      var c := CmpIdent(ParsePreIdentifier(a[0]), ParsePreIdentifier(b[0]));
      if c != 0 then c else CmpIdents(a[1..], b[1..])
  }

  lemma CmpIdentsStep(a: seq<string>, b: seq<string>, i: nat)
    requires i <= |a| && i <= |b| && CmpIdents(a, b) == CmpIdents(a[i..], b[i..])
    ensures i == |a| || i == |b| ==> CmpIdents(a, b) == CmpInt(|a|, |b|)
    ensures i < |a| && i < |b| ==>
              var c := CmpIdent(ParsePreIdentifier(a[i]), ParsePreIdentifier(b[i]));
              CmpIdents(a, b) == if c != 0 then c else CmpIdents(a[i + 1..], b[i + 1..])
  {
    if i < |a| && i < |b| { assert a[i..][1..] == a[i + 1..] && b[i..][1..] == b[i + 1..]; }
  }

  method ComparePrerelease(a: string, b: string) returns (r: int)
    ensures r == CmpIdents(Split(a, '.'), Split(b, '.'))
  {
    hide Split, CmpIdents, Atoi, Less;
    var aParts, bParts := Split(a, '.'), Split(b, '.');
    assert aParts[0..] == aParts && bParts[0..] == bParts;
    var i := 0;
    while i < |aParts| && i < |bParts|
      invariant i <= |aParts| && i <= |bParts|
      invariant CmpIdents(aParts, bParts) == CmpIdents(aParts[i..], bParts[i..])
    {
      var ai, bi := ParsePreIdentifier(aParts[i]), ParsePreIdentifier(bParts[i]);
      CmpIdentsStep(aParts, bParts, i);
      if ai.Number? != bi.Number? { return if ai.Number? then -1 else 1; }
      if ai.Number? {
        if ai.n != bi.n { return CmpInt(ai.n, bi.n); }
      } else if aParts[i] != bParts[i] {
        return if Less(aParts[i], bParts[i]) then -1 else 1;
      }
      i := i + 1;
    }
    CmpIdentsStep(aParts, bParts, i);
    r := CmpInt(|aParts|, |bParts|);
  }

  /** compareSemver; a release is higher than its pre-releases. */
  function Cmp(a: Version, b: Version): int {
    if a.major != b.major then CmpInt(a.major, b.major)
    else if a.minor != b.minor then CmpInt(a.minor, b.minor)
    else if a.patch != b.patch then CmpInt(a.patch, b.patch)
    else if a.pre == "" && b.pre == "" then 0
    else if a.pre == "" then 1
    else if b.pre == "" then -1
    else CmpIdents(Split(a.pre, '.'), Split(b.pre, '.'))
  }

  /** isVersionNewer; an unknown version is never newer, nor is anything newer than it. */
  function Newer(candidate: string, current: string): bool {
    var (a, b) := (TrimSpace(candidate), TrimSpace(current));
    && a != "" && b != "" && b != "dev"
    && Parse(a).Some? && Parse(b).Some? && Cmp(Parse(a).value, Parse(b).value) > 0
  }

  // -------------------------------------------------------------- a total order

  lemma CmpIdentOrder(a: Ident, b: Ident, c: Ident)
    ensures CmpIdent(a, b) == -CmpIdent(b, a) && (CmpIdent(a, b) == 0 <==> a == b)
    ensures CmpIdent(a, b) <= 0 && CmpIdent(b, c) <= 0 ==> CmpIdent(a, c) <= 0
  {
    if a.Word? && b.Word? {
      LessTotal(a.s, b.s);
      LessIrreflexive(a.s);
      if Less(a.s, b.s) && Less(b.s, a.s) { LessTransitive(a.s, b.s, a.s); }
      if c.Word? && Less(a.s, b.s) && Less(b.s, c.s) { LessTransitive(a.s, b.s, c.s); }
    }
  }

  lemma {:induction false} CmpIdentsAntisymmetric(a: seq<string>, b: seq<string>)
    ensures CmpIdents(a, b) == -CmpIdents(b, a) && -1 <= CmpIdents(a, b) <= 1
    ensures a == b ==> CmpIdents(a, b) == 0
  {
    if a != [] && b != [] {
      CmpIdentOrder(ParsePreIdentifier(a[0]), ParsePreIdentifier(b[0]), ParsePreIdentifier(a[0]));
      CmpIdentsAntisymmetric(a[1..], b[1..]);
    }
  }

  lemma {:induction false} CmpIdentsTransitive(a: seq<string>, b: seq<string>, c: seq<string>)
    requires CmpIdents(a, b) <= 0 && CmpIdents(b, c) <= 0
    ensures CmpIdents(a, c) <= 0
    ensures CmpIdents(a, b) < 0 || CmpIdents(b, c) < 0 ==> CmpIdents(a, c) < 0
  {
    if a != [] && b != [] && c != [] {
      var (x, y, z) := (ParsePreIdentifier(a[0]), ParsePreIdentifier(b[0]), ParsePreIdentifier(c[0]));
      CmpIdentOrder(x, y, z);
      CmpIdentOrder(y, z, x);
      CmpIdentOrder(z, x, y);
      if x == y && y == z { CmpIdentsTransitive(a[1..], b[1..], c[1..]); }
    }
  }

  /** compareSemver is antisymmetric, and transitive also where one comparison is strict. */
  lemma CmpIsAnOrder(a: Version, b: Version, c: Version)
    ensures Cmp(a, b) == -Cmp(b, a) && Cmp(a, a) == 0 && -1 <= Cmp(a, b) <= 1
    ensures Cmp(a, b) <= 0 && Cmp(b, c) <= 0 ==> Cmp(a, c) <= 0
    ensures Cmp(a, b) < 0 && Cmp(b, c) <= 0 ==> Cmp(a, c) < 0
    ensures Cmp(a, b) <= 0 && Cmp(b, c) < 0 ==> Cmp(a, c) < 0
  {
    hide CmpIdents;
    var (p, q, r) := (Split(a.pre, '.'), Split(b.pre, '.'), Split(c.pre, '.'));
    CmpIdentsAntisymmetric(p, q);
    CmpIdentsAntisymmetric(p, p);
    if CmpIdents(p, q) <= 0 && CmpIdents(q, r) <= 0 { CmpIdentsTransitive(p, q, r); }
  }

  /** isVersionNewer is a strict order on arbitrary strings. */
  lemma NewerIsAStrictOrder(a: string, b: string, c: string)
    ensures !Newer(a, a)
    ensures Newer(a, b) ==> !Newer(b, a)
    ensures Newer(a, b) && Newer(b, c) ==> Newer(a, c)
  {
    hide Parse, Cmp, TrimSpace;
    var (s, t, u) := (Parse(TrimSpace(a)), Parse(TrimSpace(b)), Parse(TrimSpace(c)));
    if s.Some? { CmpIsAnOrder(s.value, s.value, s.value); }
    if s.Some? && t.Some? {
      CmpIsAnOrder(s.value, t.value, s.value);
      if u.Some? {
        CmpIsAnOrder(u.value, t.value, s.value);
        CmpIsAnOrder(s.value, t.value, u.value);
        CmpIsAnOrder(t.value, u.value, s.value);
        CmpIsAnOrder(s.value, u.value, s.value);
      }
    }
  }

  method IsVersionNewer(candidate: string, current: string) returns (r: bool)
    ensures r == Newer(candidate, current)
  {
    var a, b := TrimSpace(candidate), TrimSpace(current);
    if a == "" || b == "" || b == "dev" { return false; }
    var v := ParseSemver(a);
    var w := ParseSemver(b);
    if v.None? || w.None? { return false; }
    var c := CompareSemver(v.value, w.value);
    r := c > 0;
  }

  method CompareSemver(a: Version, b: Version) returns (r: int)
    ensures r == Cmp(a, b)
  {
    if a.major != b.major { return CmpInt(a.major, b.major); }
    if a.minor != b.minor { return CmpInt(a.minor, b.minor); }
    if a.patch != b.patch { return CmpInt(a.patch, b.patch); }
    if a.pre == "" && b.pre == "" { return 0; }
    if a.pre == "" { return 1; }
    if b.pre == "" { return -1; }
    r := ComparePrerelease(a.pre, b.pre);
  }

  // ---------------------------------- Semantic Versioning 2.0.0, sections 9 and 11

  predicate IdentifierChar(c: char) { Digit(c) || 'a' <= c <= 'z' || 'A' <= c <= 'Z' || c == '-' }

  /** Section 9: not empty, from [0-9A-Za-z-], and a number has no leading zero. */
  predicate ValidIdentifier(s: string) {
    && s != "" && (forall i :: 0 <= i < |s| ==> IdentifierChar(s[i]))
    && (AllDigits(s) && |s| > 1 ==> s[0] != '0')
  }

  predicate Valid(ids: seq<string>) { forall i :: 0 <= i < |ids| ==> ValidIdentifier(ids[i]) }

  /** Section 11.4.1 to 11.4.3: numbers by value, other identifiers by character, and
      numbers below the others. */
  predicate LowerIdentifier(x: string, y: string) {
    if AllDigits(x) && AllDigits(y) then Value(x) < Value(y)
    else if AllDigits(x) || AllDigits(y) then AllDigits(x)
    else Less(x, y)
  }

  /** The first difference decides; a proper prefix is lower (section 11.4.4). */
  predicate DecidedAt(a: seq<string>, b: seq<string>, k: nat) {
    && k <= |a| && k < |b| && a[..k] == b[..k]
    && (k == |a| || LowerIdentifier(a[k], b[k]))
  }

  ghost predicate Lower(a: seq<string>, b: seq<string>) { exists k: nat :: DecidedAt(a, b, k) }

  /** compareSemver orders these two lists as section 11 does. */
  ghost predicate Agrees(a: seq<string>, b: seq<string>) {
    && (CmpIdents(a, b) < 0 <==> Lower(a, b))
    && (CmpIdents(a, b) > 0 <==> Lower(b, a))
    && (CmpIdents(a, b) == 0 <==> a == b)
  }

  /** A number that fits in an int, or anything else except a dash and zeros: strconv.Atoi
      reads those as the number -0. */
  predicate Plain(s: string) {
    && (AllDigits(s) ==> Value(s) <= MAX_INT)
    && !MinusZero(s)
  }

  predicate MinusZero(s: string) { |s| > 1 && s[0] == '-' && forall i :: 1 <= i < |s| ==> s[i] == '0' }

  predicate AllPlain(ids: seq<string>) { forall i :: 0 <= i < |ids| ==> Plain(ids[i]) }

  lemma {:induction false} ZeroValue(s: string)
    requires forall i :: 0 <= i < |s| ==> Digit(s[i])
    ensures Value(s) == 0 <==> forall i :: 0 <= i < |s| ==> s[i] == '0'
  {
    if s != "" { ZeroValue(s[..|s| - 1]); }
  }

  /** Numbers without leading zeros are equal only if their digits are. */
  lemma {:induction false} ValueInjective(s: string, t: string)
    requires AllDigits(s) && AllDigits(t) && Value(s) == Value(t)
    requires (|s| > 1 ==> s[0] != '0') && (|t| > 1 ==> t[0] != '0')
    ensures s == t
  {
    var (p, q) := (s[..|s| - 1], t[..|t| - 1]);
    var (d, e) := (s[|s| - 1], t[|t| - 1]);
    assert Digit(d) && Digit(e);
    assert Value(s) == 10 * Value(p) + (d as nat - '0' as nat) && Value(t) == 10 * Value(q) + (e as nat - '0' as nat);
    assert Value(p) == Value(q) && d == e;
    assert s == p + [d] && t == q + [e];
    ZeroValue(p);
    ZeroValue(q);
    assert (p != "" ==> p[0] == s[0]) && (q != "" ==> q[0] == t[0]);
    if p != "" && q != "" { ValueInjective(p, q); }
  }

  /** parsePreIdentifier tells numbers from words as section 11 does exactly for the plain
      identifiers. */
  lemma ClassifiedIffPlain(s: string)
    requires ValidIdentifier(s)
    ensures Plain(s) <==> ParsePreIdentifier(s) == if AllDigits(s) then Number(Value(s)) else Word(s)
    ensures MinusZero(s) ==> ParsePreIdentifier(s) == Number(0)
    ensures AllDigits(s) && Value(s) > MAX_INT ==> ParsePreIdentifier(s) == Word(s)
  {
    if s[0] == '-' {
      var body := s[1..];
      if AllDigits(body) { ZeroValue(body); }
    }
  }

  lemma PlainIdentifiers(x: string, y: string)
    requires ValidIdentifier(x) && ValidIdentifier(y) && Plain(x) && Plain(y)
    ensures var c := CmpIdent(ParsePreIdentifier(x), ParsePreIdentifier(y));
      (c < 0 <==> LowerIdentifier(x, y)) && (c > 0 <==> LowerIdentifier(y, x)) && (c == 0 <==> x == y)
  {
    hide ParsePreIdentifier, ValidIdentifier, Plain, Value;
    NoLeadingZero(x);
    NoLeadingZero(y);
    ClassifiedIffPlain(x);
    ClassifiedIffPlain(y);
    if AllDigits(x) && AllDigits(y) && Value(x) == Value(y) { ValueInjective(x, y); }
    CmpIdentOrder(ParsePreIdentifier(x), ParsePreIdentifier(y), ParsePreIdentifier(x));
    LessTotal(x, y);
    LessIrreflexive(x);
  }

  lemma NoLeadingZero(s: string)
    requires ValidIdentifier(s)
    ensures AllDigits(s) && |s| > 1 ==> s[0] != '0'
  {
  }

  lemma LowerIrreflexive(x: string)
    ensures !LowerIdentifier(x, x)
  {
    LessIrreflexive(x);
  }

  /** Section 11 by the first identifiers. */
  lemma LowerByHead(a: seq<string>, b: seq<string>)
    ensures a == [] ==> (Lower(a, b) <==> b != [])
    ensures b == [] ==> !Lower(a, b)
    ensures a != [] && b != [] && a[0] != b[0] ==> (Lower(a, b) <==> LowerIdentifier(a[0], b[0]))
    ensures a != [] && b != [] && a[0] == b[0] ==> (Lower(a, b) <==> Lower(a[1..], b[1..]))
  {
    if a == [] && b != [] { assert DecidedAt(a, b, 0); }
    if a != [] && b != [] {
      if a[0] != b[0] {
        if LowerIdentifier(a[0], b[0]) { assert DecidedAt(a, b, 0); }
        forall k: nat | 0 < k <= |a| && k < |b| ensures a[..k] != b[..k] {
          assert a[..k][0] != b[..k][0];
        }
      } else {
        LowerIrreflexive(a[0]);
        if Lower(a, b) {
          var k: nat :| DecidedAt(a, b, k);
          assert forall i :: 0 <= i < k - 1 ==> a[1..][i] == a[..k][i + 1] && b[1..][i] == b[..k][i + 1];
          assert DecidedAt(a[1..], b[1..], k - 1);
        }
        if Lower(a[1..], b[1..]) {
          var k: nat :| DecidedAt(a[1..], b[1..], k);
          assert a[..k + 1] == [a[0]] + a[1..][..k] && b[..k + 1] == [b[0]] + b[1..][..k];
          assert DecidedAt(a, b, k + 1);
        }
      }
    }
  }

  /** On plain identifiers the order is that of section 11. */
  lemma {:induction false} AgreesWhenPlain(a: seq<string>, b: seq<string>)
    requires Valid(a) && Valid(b) && AllPlain(a) && AllPlain(b)
    ensures Agrees(a, b)
  {
    hide ParsePreIdentifier, LowerIdentifier, ValidIdentifier, Plain;
    LowerByHead(a, b);
    LowerByHead(b, a);
    if a != [] && b != [] {
      PlainIdentifiers(a[0], b[0]);
      AgreesWhenPlain(a[1..], b[1..]);
      assert a == [a[0]] + a[1..] && b == [b[0]] + b[1..];
    }
  }

  lemma {:induction false} AgreesAfter(p: seq<string>, a: seq<string>, b: seq<string>)
    ensures Agrees(p + a, p + b) <==> Agrees(a, b)
  {
    if p == [] {
      assert p + a == a && p + b == b;
    } else {
      AgreesAfter(p[1..], a, b);
      assert (p + a)[1..] == p[1..] + a && (p + b)[1..] == p[1..] + b;
      LowerByHead(p + a, p + b);
      LowerByHead(p + b, p + a);
      var x := ParsePreIdentifier(p[0]);
      CmpIdentOrder(x, x, x);
      assert p + a == [p[0]] + (p[1..] + a) && p + b == [p[0]] + (p[1..] + b);
    }
  }

  /** What an identifier that is not plain is compared with to see the difference: a number
      above zero for a dash and zeros, a dash for a number that does not fit. */
  function Contrast(x: string): string { if MinusZero(x) then "1" else "-" }

  lemma ContrastIsPlain(x: string)
    requires ValidIdentifier(x) && !Plain(x)
    ensures ValidIdentifier(Contrast(x)) && Plain(Contrast(x)) && Contrast(x) != x
    ensures var c := CmpIdent(ParsePreIdentifier(x), ParsePreIdentifier(Contrast(x)));
      c != 0 && (c < 0 <==> LowerIdentifier(Contrast(x), x))
  {
    ClassifiedIffPlain(x);
    assert Value("1"[..0]) == 0 && Value("1") == 1;
    assert !AllDigits("-") by { assert !Digit("-"[0]); }
    assert !MinusZero("-") && !MinusZero("1");
    assert AllDigits("1");
    ClassifiedIffPlain(Contrast(x));
    if MinusZero(x) {
      assert !AllDigits(x) by { assert !Digit(x[0]); }
    } else {
      assert Digit(x[0]) && !Less(x, "-");
    }
  }

  /** A pre-release is compared as section 11 says with every plain one exactly when it is
      plain itself. */
  lemma AgreesIffPlain(a: seq<string>)
    requires Valid(a)
    ensures AllPlain(a) <==> forall b :: Valid(b) && AllPlain(b) ==> Agrees(a, b)
  {
    if AllPlain(a) {
      forall b | Valid(b) && AllPlain(b) ensures Agrees(a, b) { AgreesWhenPlain(a, b); }
    } else {
      var i := FirstOdd(a);
      var b := a[..i] + [Contrast(a[i])];
      ContrastIsPlain(a[i]);
      assert Valid(b) && AllPlain(b);
      assert a == a[..i] + a[i..];
      AgreesAfter(a[..i], a[i..], [Contrast(a[i])]);
      LowerByHead(a[i..], [Contrast(a[i])]);
      assert !Agrees(a, b);
    }
  }

  /** For one: 1.0.0-0 and 1.0.0--0 compare as equal, where section 11 puts the number below
      the identifier with a dash. */
  lemma DashZeroIsNotOrdered()
    ensures Valid(["0"]) && Valid(["-0"]) && CmpIdents(["-0"], ["0"]) == 0 && Lower(["0"], ["-0"])
  {
    assert MinusZero("-0") && AllDigits("0") && !Digit("-0"[0]);
    ClassifiedIffPlain("-0");
    assert Value("0"[..0]) == 0 && Value("0") == 0;
    ClassifiedIffPlain("0");
    assert DecidedAt(["0"], ["-0"], 0);
  }

  function FirstOdd(a: seq<string>): (i: nat)
    requires !AllPlain(a)
    ensures i < |a| && !Plain(a[i]) && forall j :: 0 <= j < i ==> Plain(a[j])
  {
    if !Plain(a[0]) then 0 else
      assert exists j :: 0 <= j < |a| && !Plain(a[j]);
      1 + FirstOdd(a[1..])
  }

  // ----------------------------------------------------------------- printed tags

  /** The numbers, with dots between them. */
  function Dotted(ns: seq<nat>): string {
    if ns == [] then "" else if |ns| == 1 then Itoa(ns[0]) else Itoa(ns[0]) + ['.'] + Dotted(ns[1..])
  }

  /** A tag: a "v" or not, the numbers, a pre-release if there is one, build metadata or none. */
  function Print(v: bool, ns: seq<nat>, pre: string, build: Option<string>): string {
    (if v then "v" else "") + WithBuild(WithPre(Dotted(ns), pre), build)
  }

  function WithPre(core: string, pre: string): string { if pre == "" then core else core + ['-'] + pre }

  function WithBuild(w: string, build: Option<string>): string { if build.None? then w else w + ['+'] + build.value }

  /** The tag of a version. */
  function Tag(v: Version): string { Print(true, [v.major, v.minor, v.patch], v.pre, None) }

  lemma {:induction false} SplitWord(w: string, rest: string, sep: char)
    requires sep !in w
    ensures Split(w, sep) == [w]
    ensures Split(w + [sep] + rest, sep) == [w] + Split(rest, sep)
  {
    if w == "" {
      assert (w + [sep] + rest)[1..] == rest;
    } else {
      SplitWord(w[1..], rest, sep);
      assert (w + [sep] + rest)[1..] == w[1..] + [sep] + rest;
      assert w == [w[0]] + w[1..];
    }
  }

  function Itoas(ns: seq<nat>): seq<string> { if ns == [] then [] else [Itoa(ns[0])] + Itoas(ns[1..]) }

  predicate AllFit(ns: seq<nat>) { forall i :: 0 <= i < |ns| ==> ns[i] <= MAX_INT }

  lemma {:induction false} SplitDotted(ns: seq<nat>)
    requires ns != [] && AllFit(ns)
    ensures Split(Dotted(ns), '.') == Itoas(ns) && |Itoas(ns)| == |ns|
    ensures '-' !in Dotted(ns) && '+' !in Dotted(ns)
    ensures Dotted(ns) != "" && Digit(Dotted(ns)[0]) && Digit(Dotted(ns)[|Dotted(ns)| - 1])
  {
    hide Split, Itoa;
    PartOfNumber(ns[0]);
    if |ns| == 1 {
      SplitWord(Itoa(ns[0]), "", '.');
      assert Itoas(ns[1..]) == [];
    } else {
      SplitDotted(ns[1..]);
      SplitWord(Itoa(ns[0]), Dotted(ns[1..]), '.');
    }
  }

  lemma {:induction false} CoreOfNumbers(ns: seq<nat>)
    requires AllFit(ns)
    ensures Core(Itoas(ns)) == Some(ns)
  {
    hide Itoa, Part;
    if ns != [] {
      var (front, last) := (ns[..|ns| - 1], ns[|ns| - 1]);
      CoreOfNumbers(front);
      PartOfNumber(last);
      ItoasSnoc(front, last);
      assert ns == front + [last];
      CoreSnoc(Itoas(front), Itoa(last));
    }
  }

  lemma {:induction false} ItoasSnoc(ns: seq<nat>, n: nat)
    ensures Itoas(ns + [n]) == Itoas(ns) + [Itoa(n)]
  {
    if ns == [] {
      assert [n][1..] == [] && ns + [n] == [n];
    } else {
      ItoasSnoc(ns[1..], n);
      assert (ns + [n])[1..] == ns[1..] + [n];
    }
  }

  lemma CoreSnoc(parts: seq<string>, p: string)
    requires Core(parts).Some? && Part(p).Some?
    ensures Core(parts + [p]) == Some(Core(parts).value + [Part(p).value])
  {
    assert (parts + [p])[..|parts|] == parts;
  }

  lemma PartOfNumber(n: nat)
    requires n <= MAX_INT
    ensures Part(Itoa(n)) == Some(n)
    ensures forall i :: 0 <= i < |Itoa(n)| ==> Digit(Itoa(n)[i])
  {
  }

  lemma {:induction false} IndexOfAbsent(s: string, rest: string, c: char)
    requires c !in s
    ensures IndexOf(s, c) == |s| && IndexOf(s + [c] + rest, c) == |s|
  {
    if s != "" {
      IndexOfAbsent(s[1..], rest, c);
      assert (s + [c] + rest)[1..] == s[1..] + [c] + rest;
    }
  }

  /** Any tag of this form is read back: missing numbers are zero, build metadata does not
      count, and more than three numbers are refused. */
  lemma FormIsRead(v: bool, ns: seq<nat>, pre: string, build: Option<string>)
    requires ns != [] && AllFit(ns) && '+' !in pre
    requires var s := Print(v, ns, pre, build); s != "" && !Space(s[|s| - 1])
    ensures Parse(Print(v, ns, pre, build)) == if |ns| > 3 then None
            else Some(Version(ns[0], if |ns| > 1 then ns[1] else 0, if |ns| > 2 then ns[2] else 0, pre))
  {
    hide Split, Core, IndexOf, TrimSpace, Dotted, Itoas, Parse, Pick, Part;
    SplitDotted(ns);
    CoreOfNumbers(ns);
    var core := Dotted(ns);
    var w := WithPre(core, pre);
    CutPre(core, pre);
    CutBuild(w, build);
    var (u, s) := (WithBuild(w, build), Print(v, ns, pre, build));
    assert u[0] == u[..|w|][0] == w[..|core|][0] == core[0];
    assert s[0] == if v then 'v' else core[0];
    NothingToTrim(s);
    assert v ==> s[1..] == u;
    assert !v ==> s == u;
    ReadInSteps(s, u, w, core, ns, pre);
  }

  lemma CutPre(core: string, pre: string)
    requires '-' !in core
    ensures var w := WithPre(core, pre);
      && IndexOf(w, '-') == |core| <= |w| && w[..|core|] == core
      && (if |core| < |w| then w[|core| + 1..] == pre else pre == "")
      && ('+' !in core && '+' !in pre ==> '+' !in w)
  {
    IndexOfAbsent(core, pre, '-');
  }

  lemma CutBuild(w: string, build: Option<string>)
    requires '+' !in w
    ensures var u := WithBuild(w, build); IndexOf(u, '+') == |w| <= |u| && u[..|w|] == w
  {
    IndexOfAbsent(w, if build.None? then "" else build.value, '+');
  }

  lemma ReadInSteps(s: string, u: string, w: string, core: string, ns: seq<nat>, pre: string)
    requires TrimSpace(s) == s && s != "" && u == (if s[0] == 'v' then s[1..] else s)
    requires IndexOf(u, '+') == |w| <= |u| && u[..|w|] == w
    requires IndexOf(w, '-') == |core| <= |w| && w[..|core|] == core
    requires if |core| < |w| then w[|core| + 1..] == pre else pre == ""
    requires |Split(core, '.')| == |ns| > 0 && Core(Split(core, '.')) == Some(ns)
    ensures Parse(s) == if |ns| > 3 then None
            else Some(Version(ns[0], if |ns| > 1 then ns[1] else 0, if |ns| > 2 then ns[2] else 0, pre))
  {
    hide Split, Core, IndexOf, TrimSpace;
  }

  /** Parsing a tag gives back the version it was made from. */
  lemma TagRoundTrip(v: Version)
    requires Fits(v) && '+' !in v.pre && (v.pre != "" ==> !Space(v.pre[|v.pre| - 1]))
    ensures Parse(Tag(v)) == Some(v) && TrimSpace(Tag(v)) == Tag(v) && Tag(v) != "" && Tag(v) != "dev"
  {
    hide Parse, TrimSpace, Dotted;
    var ns := [v.major, v.minor, v.patch];
    SplitDotted(ns);
    var t := Tag(v);
    assert t[|t| - 1] == if v.pre == "" then Dotted(ns)[|Dotted(ns)| - 1] else v.pre[|v.pre| - 1];
    FormIsRead(true, ns, v.pre, None);
    assert t[0] == 'v' && "dev"[0] == 'd';
    NothingToTrim(t);
  }

  // ------------------------------------------------ whole versions, section 11.2 to 11.4

  /** The first difference of major, minor and patch is lower. */
  predicate LowerCore(a: Version, b: Version) {
    || a.major < b.major
    || (a.major == b.major && a.minor < b.minor)
    || (a.major == b.major && a.minor == b.minor && a.patch < b.patch)
  }

  predicate SameCore(a: Version, b: Version) { a.major == b.major && a.minor == b.minor && a.patch == b.patch }

  /** Section 11: by the core, then a pre-release below its release, then by the lists of
      identifiers. */
  ghost predicate Precedes(a: Version, b: Version) {
    || LowerCore(a, b)
    || (SameCore(a, b) && a.pre != "" && (b.pre == "" || Lower(Split(a.pre, '.'), Split(b.pre, '.'))))
  }

  /** Without a pre-release, or with one of plain identifiers. */
  predicate PlainVersion(v: Version) { v.pre != "" ==> Valid(Split(v.pre, '.')) && AllPlain(Split(v.pre, '.')) }

  /** compareSemver orders plain versions as section 11 does. */
  lemma CmpIsSection11(a: Version, b: Version)
    requires PlainVersion(a) && PlainVersion(b)
    ensures Cmp(a, b) < 0 <==> Precedes(a, b)
    ensures Cmp(a, b) > 0 <==> Precedes(b, a)
  {
    hide CmpIdents, Lower, Valid, AllPlain;
    if a.pre != "" && b.pre != "" { AgreesWhenPlain(Split(a.pre, '.'), Split(b.pre, '.')); }
  }

  lemma {:induction false} SplitKeeps(s: string, sep: char, i: nat) returns (j: nat)
    requires i < |s| && s[i] != sep
    ensures j < |Split(s, sep)| && s[i] in Split(s, sep)[j]
  {
    var rest := Split(s[1..], sep);
    if i == 0 {
      j := 0;
    } else {
      var k := SplitKeeps(s[1..], sep, i - 1);
      j := if s[0] == sep then k + 1 else k;
      assert Split(s, sep)[j] == if s[0] == sep || k > 0 then rest[k] else [s[0]] + rest[0];
    }
  }

  /** Such a pre-release can be printed and read back. */
  lemma PlainIsPrintable(v: Version)
    requires PlainVersion(v)
    ensures '+' !in v.pre && (v.pre != "" ==> !Space(v.pre[|v.pre| - 1]))
  {
    hide Split, AllPlain, ValidIdentifier;
    forall i | 0 <= i < |v.pre| && v.pre[i] != '.' ensures IdentifierChar(v.pre[i]) {
      var j := SplitKeeps(v.pre, '.', i);
      ValidChars(Split(v.pre, '.')[j]);
    }
  }

  lemma ValidChars(s: string)
    requires ValidIdentifier(s)
    ensures forall c :: c in s ==> IdentifierChar(c)
  {
  }

  /** The numbers fit in an int. */
  predicate Fits(v: Version) { v.major <= MAX_INT && v.minor <= MAX_INT && v.patch <= MAX_INT }

  /** One tag is newer than another exactly if section 11 puts its version above the other's. */
  lemma NewerIsSection11(a: Version, b: Version)
    requires Fits(a) && Fits(b) && PlainVersion(a) && PlainVersion(b)
    ensures Newer(Tag(b), Tag(a)) <==> Precedes(a, b)
  {
    hide Parse, Cmp, Precedes, Print, TrimSpace, PlainVersion;
    PlainIsPrintable(a);
    PlainIsPrintable(b);
    TagRoundTrip(a);
    TagRoundTrip(b);
    CmpIsSection11(b, a);
  }

  lemma NothingToTrim(s: string)
    requires s != "" && !Space(s[0]) && !Space(s[|s| - 1])
    ensures TrimSpace(s) == s
  {
  }
}
