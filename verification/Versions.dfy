/** `Version` (3rdparty/stout/version.hpp): SemVer precedence, parsing and printing. */
module Versions {
  import opened Wrappers
  import opened Numbers
  import opened Strings

  datatype Version = Version(major: nat, minor: nat, patch: nat, prerelease: seq<string>, build: seq<string>)

  // ------------------------------------------------------------ orders

  /** Lexicographic order over an order of the elements; a proper prefix comes first. */
  predicate Lex<T(==)>(less: (T, T) -> bool, a: seq<T>, b: seq<T>) {
    if a == [] || b == [] then b != []
    else if a[0] == b[0] then Lex(less, a[1..], b[1..])
    else less(a[0], b[0])
  }

  ghost predicate StrictTotal<T(!new)>(less: (T, T) -> bool) {
    && (forall a :: !less(a, a))
    && (forall a, b :: less(a, b) || a == b || less(b, a))
    && (forall a, b, c :: less(a, b) && less(b, c) ==> less(a, c))
  }

  lemma {:induction false} LexTotal<T(!new)>(less: (T, T) -> bool, a: seq<T>, b: seq<T>)
    requires StrictTotal(less)
    ensures a == b ==> !Lex(less, a, b)
    ensures a != b ==> Lex(less, a, b) != Lex(less, b, a)
  {
    if a != [] && b != [] {
      if a[0] == b[0] {
        LexTotal(less, a[1..], b[1..]);
        assert a == [a[0]] + a[1..] && b == [b[0]] + b[1..];
      }
    }
  }

  lemma {:induction false} LexTransitive<T(!new)>(less: (T, T) -> bool, a: seq<T>, b: seq<T>, c: seq<T>)
    requires StrictTotal(less) && Lex(less, a, b) && Lex(less, b, c)
    ensures Lex(less, a, c)
  {
    if a != [] {
      if a[0] == b[0] == c[0] {
        LexTransitive(less, a[1..], b[1..], c[1..]);
      }
    }
  }

  predicate CharLess(a: char, b: char) { a < b }

  /** `operator<` of the string class. */
  predicate StringLess(a: string, b: string) { Lex(CharLess, a, b) }

  predicate NatLess(a: nat, b: nat) { a < b }

  /** Identifiers by what they compare as. */
  datatype Key = Number(n: nat) | Label(s: string)

  predicate KeyLess(a: Key, b: Key) {
    match (a, b)
    case (Number(m), Number(n)) => m < n
    case (Number(_), Label(_)) => true
    case (Label(_), Number(_)) => false
    case (Label(s), Label(t)) => StringLess(s, t)
  }

  lemma {:induction false} KeysStrictTotal()
    ensures StrictTotal(CharLess) && StrictTotal(NatLess) && StrictTotal(KeyLess)
  {
    assert StrictTotal(CharLess);
    forall a, b ensures (a == b ==> !KeyLess(a, b)) && (KeyLess(a, b) || a == b || KeyLess(b, a)) {
      if a.Label? && b.Label? { LexTotal(CharLess, a.s, b.s); }
    }
    forall a, b, c | KeyLess(a, b) && KeyLess(b, c) ensures KeyLess(a, c) {
      if a.Label? { LexTransitive(CharLess, a.s, b.s, c.s); }
    }
  }

  // ------------------------------------------------------------ precedence

  predicate StartsWithHyphen(s: string) { s != [] && s[0] == '-' }

  /** `parseNumericIdentifier` */
  function ParseNumericIdentifier(s: string): Option<nat> {
    if StartsWithHyphen(s) then None else Numify(s, UINT32_MAX)
  }

  function KeyOf(identifier: string): Key {
    var n := ParseNumericIdentifier(identifier);
    if n.Some? then Number(n.value) else Label(identifier)
  }

  function KeysOf(identifiers: seq<string>): (keys: seq<Key>)
    ensures |keys| == |identifiers| && forall i :: 0 <= i < |keys| ==> keys[i] == KeyOf(identifiers[i])
  {
    if identifiers == [] then [] else [KeyOf(identifiers[0])] + KeysOf(identifiers[1..])
  }

  function Components(v: Version): seq<nat> { [v.major, v.minor, v.patch] }

  /** Section 11 of Semantic Versioning 2.0.0: the numbers, then a release above its prereleases, then the identifiers. */
  predicate Precedes(a: Version, b: Version) {
    || Lex(NatLess, Components(a), Components(b))
    || (Components(a) == Components(b) && a.prerelease != [] && b.prerelease == [])
    || (Components(a) == Components(b) && a.prerelease != [] && b.prerelease != []
        && Lex(KeyLess, KeysOf(a.prerelease), KeysOf(b.prerelease)))
  }

  /** What precedence sees of a version. */
  predicate SameRank(a: Version, b: Version) {
    Components(a) == Components(b) && KeysOf(a.prerelease) == KeysOf(b.prerelease)
  }

  /** `operator==`, which ignores the build label. */
  predicate Equal(a: Version, b: Version) {
    a.major == b.major && a.minor == b.minor && a.patch == b.patch && a.prerelease == b.prerelease
  }

  lemma {:induction false} PrecedesTotal(a: Version, b: Version)
    ensures SameRank(a, b) ==> !Precedes(a, b)
    ensures !SameRank(a, b) ==> Precedes(a, b) != Precedes(b, a)
  {
    KeysStrictTotal();
    LexTotal(NatLess, Components(a), Components(b));
    LexTotal(KeyLess, KeysOf(a.prerelease), KeysOf(b.prerelease));
    assert a.prerelease == [] <==> KeysOf(a.prerelease) == [];
    assert b.prerelease == [] <==> KeysOf(b.prerelease) == [];
  }

  lemma {:induction false} PrecedesTransitive(a: Version, b: Version, c: Version)
    requires Precedes(a, b) && Precedes(b, c)
    ensures Precedes(a, c)
  {
    KeysStrictTotal();
    if Lex(NatLess, Components(a), Components(b)) && Lex(NatLess, Components(b), Components(c)) {
      LexTransitive(NatLess, Components(a), Components(b), Components(c));
    } else if Components(a) == Components(b) == Components(c) && c.prerelease != [] {
      LexTransitive(KeyLess, KeysOf(a.prerelease), KeysOf(b.prerelease), KeysOf(c.prerelease));
    }
  }

  /**
   A strict weak order on all versions: irreflexive, transitive, and two versions are incomparable exactly when their
   numbers and identifier keys are the same, which is an equivalence.
   */
  lemma {:induction false} StrictWeakOrder(a: Version, b: Version, c: Version)
    ensures !Precedes(a, a)
    ensures Precedes(a, b) && Precedes(b, c) ==> Precedes(a, c)
    ensures !Precedes(a, b) && !Precedes(b, a) <==> SameRank(a, b)
    ensures SameRank(a, b) ==> (Precedes(a, c) <==> Precedes(b, c)) && (Precedes(c, a) <==> Precedes(c, b))
  {
    PrecedesTotal(a, a);
    PrecedesTotal(a, b);
    PrecedesTotal(b, a);
    if Precedes(a, b) && Precedes(b, c) { PrecedesTransitive(a, b, c); }
    if SameRank(a, b) {
      SameRankEmpty(a, b);
    }
  }

  lemma {:induction false} SameRankEmpty(a: Version, b: Version)
    requires SameRank(a, b)
    ensures a.prerelease == [] <==> b.prerelease == []
  {
    assert |KeysOf(a.prerelease)| == |KeysOf(b.prerelease)|;
  }

  /** Equal versions are not distinguished. The converse fails: a number can be spelt in several ways. */
  lemma {:induction false} EqualIsSameRank(a: Version, b: Version)
    requires Equal(a, b)
    ensures SameRank(a, b)
  {
  }

  lemma {:induction false} TieIsNotEqual(a: Version, b: Version)
    requires a == Version(1, 0, 0, ["1"], []) && b == Version(1, 0, 0, ["01"], [])
    ensures !Precedes(a, b) && !Precedes(b, a) && !Equal(a, b)
  {
    assert Value("1") == Value("") * 10 + 1;
    assert "01"[..1] == "0" && Value("0") == Value("") * 10 + 0;
    assert Value("01") == Value("0") * 10 + 1;
    assert KeyOf("1") == KeyOf("01") == Number(1);
    assert KeysOf(a.prerelease) == KeysOf(b.prerelease);
    PrecedesTotal(a, b);
    PrecedesTotal(b, a);
  }

  /** From position `i` on the labels compare as they do from the start. */
  lemma {:induction false} LexDrop<T(!new)>(less: (T, T) -> bool, a: seq<T>, b: seq<T>, i: nat)
    requires i <= |a| && i <= |b| && a[..i] == b[..i]
    ensures Lex(less, a, b) == Lex(less, a[i..], b[i..])
  {
    if i == 0 {
      assert a[0..] == a && b[0..] == b;
    } else {
      assert a[0] == a[..i][0] == b[0];
      assert a[1..][..i - 1] == a[..i][1..] && b[1..][..i - 1] == b[..i][1..];
      LexDrop(less, a[1..], b[1..], i - 1);
      assert a[1..][i - 1..] == a[i..] && b[1..][i - 1..] == b[i..];
    }
  }

  /** The first difference decides. */
  lemma {:induction false} LexDecided<T(!new)>(less: (T, T) -> bool, a: seq<T>, b: seq<T>, i: nat)
    requires i < |a| && i < |b| && a[..i] == b[..i]
    ensures a[i] != b[i] ==> Lex(less, a, b) == less(a[i], b[i])
    ensures a[i] == b[i] ==> a[..i + 1] == b[..i + 1]
  {
    LexDrop(less, a, b, i);
    assert a[i..][0] == a[i] && b[i..][0] == b[i];
    if a[i] == b[i] { assert a[..i + 1] == a[..i] + [a[i]] && b[..i + 1] == b[..i] + [b[i]]; }
  }

  lemma {:induction false} LexPrefix<T(!new)>(less: (T, T) -> bool, a: seq<T>, b: seq<T>, i: nat)
    requires i <= |a| && i <= |b| && a[..i] == b[..i] && (i == |a| || i == |b|)
    ensures Lex(less, a, b) == (|a| < |b|)
  {
    LexDrop(less, a, b, i);
  }

  lemma {:induction false} ComponentsLex(a: Version, b: Version)
    ensures Lex(NatLess, Components(a), Components(b)) <==>
            a.major < b.major || (a.major == b.major && (a.minor < b.minor || (a.minor == b.minor && a.patch < b.patch)))
  {
    var x, y := Components(a), Components(b);
    LexDecided(NatLess, x, y, 0);
    if a.major == b.major {
      LexDecided(NatLess, x, y, 1);
      if a.minor == b.minor {
        LexDecided(NatLess, x, y, 2);
        if a.patch == b.patch { LexPrefix(NatLess, x, y, 3); }
      }
    }
  }

  /** The loop over the identifiers. */
  method LabelsLess(a: seq<string>, b: seq<string>) returns (r: bool)
    ensures r == Lex(KeyLess, KeysOf(a), KeysOf(b))
  {
    ghost var x, y := KeysOf(a), KeysOf(b);
    var size := if |a| < |b| then |a| else |b|;
    for i := 0 to size
      invariant x[..i] == y[..i]
    {
      LexDecided(KeyLess, x, y, i);
      var m, n := ParseNumericIdentifier(a[i]), ParseNumericIdentifier(b[i]);
      if m.Some? && n.Some? {
        if m.value != n.value {
          return m.value < n.value;
        }
      } else if m.Some? {
        return true;
      } else if n.Some? {
        return false;
      } else if a[i] != b[i] {
        return StringLess(a[i], b[i]);
      }
    }
    LexPrefix(KeyLess, x, y, size);
    return |a| < |b|;
  }

  /** `operator<` */
  method LessThan(a: Version, b: Version) returns (r: bool)
    ensures r == Precedes(a, b)
  {
    ComponentsLex(a, b);
    if a.major != b.major { return a.major < b.major; }
    if a.minor != b.minor { return a.minor < b.minor; }
    if a.patch != b.patch { return a.patch < b.patch; }
    if a.prerelease != [] && b.prerelease == [] { return true; }
    if a.prerelease == [] && b.prerelease != [] { return false; }
    r := LabelsLess(a.prerelease, b.prerelease);
  }

  // ------------------------------------------------------------ text

  /** An identifier is not empty and consists of ASCII letters, digits and hyphens. */
  predicate IdentifierChar(c: char) { 'a' <= c <= 'z' || 'A' <= c <= 'Z' || IsDigit(c) || c == '-' }

  predicate ValidIdentifier(s: string) { s != [] && forall i :: 0 <= i < |s| ==> IdentifierChar(s[i]) }

  predicate ValidIdentifiers(ids: seq<string>) { forall i :: 0 <= i < |ids| ==> ValidIdentifier(ids[i]) }

  /** What the constructor demands of its labels, and the width of the numbers. */
  predicate ValidVersion(v: Version) {
    && v.major <= UINT32_MAX && v.minor <= UINT32_MAX && v.patch <= UINT32_MAX
    && ValidIdentifiers(v.prerelease) && ValidIdentifiers(v.build)
  }

  function ParseLabel(suffix: string): Try<seq<string>> {
    if suffix == [] then Error
    else
      var ids := Fields(suffix, '.');
      if ValidIdentifiers(ids) then Ok(ids) else Error
  }

  function ParseNumbers(parts: seq<string>): Try<seq<nat>> {
    if parts == [] then Ok([])
    else
      var n, rest := ParseNumericIdentifier(parts[0]), ParseNumbers(parts[1..]);
      if n.None? || rest.Error? then Error else Ok([n.value] + rest.value)
  }

  function At(ns: seq<nat>, i: nat): nat { if i < |ns| then ns[i] else 0 }

  /** The label behind the separator, if there is one. */
  function OptionalLabel(parts: seq<string>): Try<seq<string>>
    requires 0 < |parts| <= 2
  {
    if |parts| == 2 then ParseLabel(parts[1]) else Ok([])
  }

  /** Splitting in two at most: the text before the first separator, and the text behind it if there is one. */
  lemma {:induction false} HalvesLaw(s: string, c: char)
    ensures var parts := Pieces(s, {c}, Some(2)); var i := FirstOf(s, {c}, 0);
            if i == |s| then parts == [s] else parts == [s[..i], s[i + 1..]]
  {
    var i := FirstOf(s, {c}, 0);
    if i < |s| {
      assert Pieces(s[i + 1..], {c}, Some(1)) == [s[i + 1..]];
    }
  }

  function Halves(s: string, c: char): (parts: seq<string>)
    ensures 0 < |parts| <= 2
  {
    HalvesLaw(s, c);
    Pieces(s, {c}, Some(2))
  }

  function Parse(input: string): Try<Version> {
    var buildParts := Halves(input, '+');
    var build := OptionalLabel(buildParts);
    if build.Error? then Error else ParseRelease(buildParts[0], build.value)
  }

  function ParseRelease(remainder: string, build: seq<string>): Try<Version> {
    var parts := Halves(remainder, '-');
    var prerelease, components := OptionalLabel(parts), Fields(parts[0], '.');
    if prerelease.Error? || |components| > 3 then Error
    else
      var ns := ParseNumbers(components);
      if ns.Error? then Error
      else Ok(Version(At(ns.value, 0), At(ns.value, 1), At(ns.value, 2), prerelease.value, build))
  }

  function LabelText(separator: char, ids: seq<string>): string {
    if ids == [] then "" else [separator] + Join(".", ids)
  }

  function Core(v: Version): string { Join(".", [Decimal(v.major), Decimal(v.minor), Decimal(v.patch)]) }

  /** `operator<<` */
  function Print(v: Version): string { Core(v) + LabelText('-', v.prerelease) + LabelText('+', v.build) }

  /** A text without the separator, then possibly a label. */
  lemma {:induction false} HalvesOf(s: string, c: char, suffix: string)
    requires c !in s && (suffix == "" || suffix[0] == c)
    ensures Halves(s + suffix, c) == if suffix == "" then [s] else [s, suffix[1..]]
  {
    HalvesLaw(s + suffix, c);
    FirstOfIs(s + suffix, {c}, 0, |s|);
    if suffix == "" { assert s + suffix == s; } else {
      assert (s + suffix)[..|s|] == s && (s + suffix)[|s| + 1..] == suffix[1..];
    }
  }

  lemma {:induction false} IdentifierHasNo(ids: seq<string>, c: char)
    requires ValidIdentifiers(ids) && !IdentifierChar(c)
    ensures forall p :: p in ids ==> c !in p
  {
  }

  /** Joining adds no characters but the separator. */
  lemma {:induction false} JoinHasNo(ids: seq<string>, c: char)
    requires (forall p :: p in ids ==> c !in p) && c != '.'
    ensures c !in Join(".", ids)
  {
    if |ids| > 1 {
      JoinHasNo(ids[1..], c);
      assert c !in ids[0] + ".";
    } else if |ids| == 1 {
      assert ids[0] in ids;
    }
  }

  lemma {:induction false} ParseLabelText(c: char, ids: seq<string>)
    requires ids != [] && ValidIdentifiers(ids)
    ensures ParseLabel(LabelText(c, ids)[1..]) == Ok(ids)
  {
    var text := Join(".", ids);
    assert LabelText(c, ids)[1..] == text;
    IdentifierHasNo(ids, '.');
    FieldsJoin(ids, '.');
    assert ['.'] == ".";
    assert ids[0] != [];
    assert text != [];
  }

  lemma {:induction false} ParseDecimal(n: nat)
    requires n <= UINT32_MAX
    ensures ParseNumericIdentifier(Decimal(n)) == Some(n)
    ensures '.' !in Decimal(n) && '-' !in Decimal(n) && '+' !in Decimal(n)
  {
    NumifyDecimal(n, UINT32_MAX);
    assert IsDigit(Decimal(n)[0]);
    assert !IsDigit('.') && !IsDigit('-') && !IsDigit('+');
  }

  lemma {:induction false} CoreParts(v: Version)
    requires ValidVersion(v)
    ensures Fields(Core(v), '.') == [Decimal(v.major), Decimal(v.minor), Decimal(v.patch)]
    ensures '-' !in Core(v) && '+' !in Core(v)
  {
    ParseDecimal(v.major);
    ParseDecimal(v.minor);
    ParseDecimal(v.patch);
    var parts := [Decimal(v.major), Decimal(v.minor), Decimal(v.patch)];
    FieldsJoin(parts, '.');
    assert ['.'] == ".";
    JoinHasNo(parts, '-');
    JoinHasNo(parts, '+');
  }

  lemma {:induction false} NumbersGood(parts: seq<string>, ns: seq<nat>)
    requires |ns| == |parts| && forall k :: 0 <= k < |parts| ==> ParseNumericIdentifier(parts[k]) == Some(ns[k])
    ensures ParseNumbers(parts) == Ok(ns)
  {
    if parts == [] {
      assert ns == [];
    } else {
      NumbersGood(parts[1..], ns[1..]);
      assert ns == [ns[0]] + ns[1..];
    }
  }

  lemma {:induction false} ParseThree(a: nat, b: nat, c: nat, parts: seq<string>)
    requires a <= UINT32_MAX && b <= UINT32_MAX && c <= UINT32_MAX
    requires |parts| == 3 && parts[0] == Decimal(a) && parts[1] == Decimal(b) && parts[2] == Decimal(c)
    ensures ParseNumbers(parts) == Ok([a, b, c])
  {
    ParseDecimal(a);
    ParseDecimal(b);
    ParseDecimal(c);
    NumbersGood(parts, [a, b, c]);
  }

  lemma {:induction false} OptionalLabelText(c: char, ids: seq<string>, s: string)
    requires ValidIdentifiers(ids) && c !in s
    ensures var parts := Halves(s + LabelText(c, ids), c); parts[0] == s && OptionalLabel(parts) == Ok(ids)
  {
    HalvesOf(s, c, LabelText(c, ids));
    if ids != [] { ParseLabelText(c, ids); }
  }

  /** Parsing reads back every version that was printed. */
  lemma {:induction false} ParsePrint(v: Version)
    requires ValidVersion(v)
    ensures Parse(Print(v)) == Ok(v)
  {
    CoreParts(v);
    var head := Core(v) + LabelText('-', v.prerelease);
    IdentifierHasNo(v.prerelease, '+');
    JoinHasNo(v.prerelease, '+');
    assert '+' !in LabelText('-', v.prerelease);
    OptionalLabelText('+', v.build, head);
    OptionalLabelText('-', v.prerelease, Core(v));
    ParseThree(v.major, v.minor, v.patch, Fields(Core(v), '.'));
  }

  lemma {:induction false} NumbersBounded(parts: seq<string>)
    requires ParseNumbers(parts).Ok?
    ensures forall i :: 0 <= i < |ParseNumbers(parts).value| ==> ParseNumbers(parts).value[i] <= UINT32_MAX
  {
    if parts != [] { NumbersBounded(parts[1..]); }
  }

  /** What is parsed meets the demands of the constructor, so that printing and parsing it again changes nothing. */
  lemma {:induction false} ParsedIsValid(input: string)
    requires Parse(input).Ok?
    ensures ValidVersion(Parse(input).value)
    ensures Parse(Print(Parse(input).value)) == Parse(input)
  {
    var prereleaseParts := Halves(Halves(input, '+')[0], '-');
    NumbersBounded(Fields(prereleaseParts[0], '.'));
    ParsePrint(Parse(input).value);
  }

  // ------------------------------------------------------------ the code of parse

  /** `parseLabel` */
  method ReadLabel(suffix: string) returns (r: Try<seq<string>>)
    ensures r == ParseLabel(suffix)
  {
    if suffix == [] {
      return Error;
    }
    var ids := Split(suffix, {'.'}, None);
    for i := 0 to |ids|
      invariant forall k :: 0 <= k < i ==> ValidIdentifier(ids[k])
    {
      if !ValidIdentifier(ids[i]) {
        return Error;
      }
    }
    r := Ok(ids);
  }

  lemma {:induction false} NumbersFail(parts: seq<string>, i: nat)
    requires i < |parts| && ParseNumericIdentifier(parts[i]).None?
    ensures ParseNumbers(parts).Error?
  {
    if i > 0 { NumbersFail(parts[1..], i - 1); }
  }

  /** The loop over the numeric components, which fills the three numbers from the left. */
  method ReadNumbers(parts: seq<string>) returns (r: Try<seq<nat>>)
    requires |parts| <= 3
    ensures r.Error? <==> ParseNumbers(parts).Error?
    ensures r.Ok? ==> |r.value| == 3 && forall i :: 0 <= i < 3 ==> r.value[i] == At(ParseNumbers(parts).value, i)
  {
    var numbers := new nat[3][0, 0, 0];
    ghost var ns: seq<nat> := [];
    for i := 0 to |parts|
      invariant |ns| == i && forall k :: 0 <= k < i ==> ParseNumericIdentifier(parts[k]) == Some(ns[k])
      invariant forall k :: 0 <= k < 3 ==> numbers[k] == At(ns, k)
    {
      var n := ParseNumericIdentifier(parts[i]);
      if n.None? {
        NumbersFail(parts, i);
        return Error;
      }
      numbers[i] := n.value;
      ns := ns + [n.value];
    }
    NumbersGood(parts, ns);
    r := Ok(numbers[..]);
  }

  method ReadVersion(input: string) returns (r: Try<Version>)
    ensures r == Parse(input)
  {
    var build: seq<string> := [];
    var buildParts := Split(input, {'+'}, Some(2));
    HalvesLaw(input, '+');
    if |buildParts| == 2 {
      var parsed := ReadLabel(buildParts[1]);
      if parsed.Error? {
        return Error;
      }
      build := parsed.value;
    }
    var remainder := buildParts[0];
    r := ReadRelease(remainder, build);
  }

  method ReadRelease(remainder: string, build: seq<string>) returns (r: Try<Version>)
    ensures r == ParseRelease(remainder, build)
  {
    var prerelease: seq<string> := [];
    var prereleaseParts := Split(remainder, {'-'}, Some(2));
    HalvesLaw(remainder, '-');
    if |prereleaseParts| == 2 {
      var parsed := ReadLabel(prereleaseParts[1]);
      if parsed.Error? {
        return Error;
      }
      prerelease := parsed.value;
    }
    var components := Split(prereleaseParts[0], {'.'}, None);
    if |components| > 3 {
      return Error;
    }
    var numbers := ReadNumbers(components);
    if numbers.Error? {
      return Error;
    }
    r := Ok(Version(numbers.value[0], numbers.value[1], numbers.value[2], prerelease, build));
  }
}
