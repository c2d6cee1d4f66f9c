/** `strings::split`, `strings::tokenize` and `strings::join` (3rdparty/stout/strings.hpp). */
module Strings {
  import opened Wrappers

  /** `find_first_of(delims, from)`, with the length of `s` for "not found". */
  function FirstOf(s: string, delims: set<char>, from: nat): (i: nat)
    requires from <= |s|
    ensures from <= i <= |s|
    ensures i < |s| ==> s[i] in delims
    ensures forall j :: from <= j < i ==> s[j] !in delims
    decreases |s| - from
  {
    if from == |s| || s[from] in delims then from else FirstOf(s, delims, from + 1)
  }

  /** `find_first_not_of(delims, from)`, with the length of `s` for "not found". */
  function FirstNotOf(s: string, delims: set<char>, from: nat): (i: nat)
    requires from <= |s|
    ensures from <= i <= |s|
    ensures i < |s| ==> s[i] !in delims
    ensures forall j :: from <= j < i ==> s[j] in delims
    decreases |s| - from
  {
    if from == |s| || s[from] !in delims then from else FirstNotOf(s, delims, from + 1)
  }

  function Less(max: Option<nat>): Option<nat> {
    if max.Some? && max.value > 0 then Some(max.value - 1) else max
  }

  /** The pieces between delimiters, empty ones included; at most `max` of them, the last one holding the remainder. */
  function Pieces(s: string, delims: set<char>, max: Option<nat>): seq<string>
    decreases |s|
  {
    if max == Some(0) then []
    else
      var i := FirstOf(s, delims, 0);
      if i == |s| || max == Some(1) then [s]
      else [s[..i]] + Pieces(s[i + 1..], delims, Less(max))
  }

  function NonEmpty(parts: seq<string>): seq<string> {
    if parts == [] then []
    else (if parts[0] == "" then [] else [parts[0]]) + NonEmpty(parts[1..])
  }

  function Join(separator: string, parts: seq<string>): string {
    if parts == [] then ""
    else if |parts| == 1 then parts[0]
    else parts[0] + separator + Join(separator, parts[1..])
  }

  /** The first position with the property is the only one. */
  lemma {:induction false} FirstOfIs(s: string, delims: set<char>, from: nat, k: nat)
    requires from <= k <= |s| && (k < |s| ==> s[k] in delims)
    requires forall j :: from <= j < k ==> s[j] !in delims
    ensures FirstOf(s, delims, from) == k
    decreases k - from
  {
    if from < k { FirstOfIs(s, delims, from + 1, k); }
  }

  lemma {:induction false} FirstOfShift(s: string, delims: set<char>, from: nat, k: nat)
    requires k <= from <= |s|
    ensures FirstOf(s[k..], delims, from - k) == FirstOf(s, delims, from) - k
  {
    FirstOfIs(s[k..], delims, from - k, FirstOf(s, delims, from) - k);
  }

  /** One round of `Pieces`, in the indices of the whole string. */
  lemma {:induction false} PiecesStep(s: string, delims: set<char>, offset: nat, max: Option<nat>,
                                      next: nat, tail: string, rest: string)
    requires offset <= |s| && max != Some(0) && next == FirstOf(s, delims, offset) && tail == s[offset..]
    requires next < |s| ==> rest == s[next + 1..]
    ensures Pieces(tail, delims, max) ==
            if next == |s| || max == Some(1) then [tail] else [s[offset..next]] + Pieces(rest, delims, Less(max))
  {
    FirstOfShift(s, delims, offset, offset);
    var i := next - offset;
    assert FirstOf(tail, delims, 0) == i;
    if i < |tail| {
      assert tail[..i] == s[offset..next];
      assert tail[i + 1..] == rest;
    }
  }

  /** The tokens taken so far and the pieces of what is left make up the whole. */
  ghost predicate Splitting(s: string, delims: set<char>, whole: seq<string>, tokens: seq<string>, offset: nat,
                            budget: Option<nat>)
  {
    offset <= |s| && budget != Some(0) && tokens + Pieces(s[offset..], delims, budget) == whole
  }

  lemma {:induction false} SplitStep(s: string, delims: set<char>, whole: seq<string>, tokens: seq<string>, offset: nat,
                                     budget: Option<nat>, next: nat)
    requires Splitting(s, delims, whole, tokens, offset, budget) && next == FirstOf(s, delims, offset)
    ensures next == |s| || budget == Some(1) ==> tokens + [s[offset..]] == whole
    ensures next < |s| && budget != Some(1) ==>
              Splitting(s, delims, whole, tokens + [s[offset..next]], next + 1, Less(budget))
  {
    var rest := if next < |s| then s[next + 1..] else "";
    PiecesStep(s, delims, offset, budget, next, s[offset..], rest);
    if next < |s| && budget != Some(1) {
      Move(tokens, s[offset..next], Pieces(rest, delims, Less(budget)));
    }
  }

  lemma {:induction false} Move(tokens: seq<string>, token: string, rest: seq<string>)
    ensures tokens + ([token] + rest) == tokens + [token] + rest
  {
  }

  lemma {:induction false} SplitStart(s: string, delims: set<char>, max: Option<nat>)
    requires max != Some(0)
    ensures Splitting(s, delims, Pieces(s, delims, max), [], 0, max)
  {
    assert s[0..] == s;
  }

  /** `strings::split` */
  method Split(s: string, delims: set<char>, maxTokens: Option<nat>) returns (tokens: seq<string>)
    ensures tokens == Pieces(s, delims, maxTokens)
  {
    if maxTokens == Some(0) {
      return [];
    }
    ghost var whole := Pieces(s, delims, maxTokens);
    SplitStart(s, delims, maxTokens);
    tokens := SplitFrom(s, delims, maxTokens, whole);
  }

  method SplitFrom(s: string, delims: set<char>, maxTokens: Option<nat>, ghost whole: seq<string>)
    returns (tokens: seq<string>)
    requires Splitting(s, delims, whole, [], 0, maxTokens)
    ensures tokens == whole
  {
    tokens := [];
    var offset: nat := 0;
    ghost var budget: Option<nat> := maxTokens;
    while true
      invariant Splitting(s, delims, whole, tokens, offset, budget)
      invariant budget.Some? == maxTokens.Some?
      invariant budget.Some? ==> budget.value + |tokens| == maxTokens.value
      decreases |s| - offset
    {
      var next := FirstOf(s, delims, offset);
      SplitStep(s, delims, whole, tokens, offset, budget, next);
      if next == |s| || (maxTokens.Some? && |tokens| == maxTokens.value - 1) {
        return tokens + [s[offset..]];
      }
      tokens, offset, budget := tokens + [s[offset..next]], next + 1, Less(budget);
    }
  }

  ghost function Tokens(s: string, delims: set<char>): seq<string> { NonEmpty(Pieces(s, delims, None)) }

  lemma {:induction false} NonEmptyCons(p: string, parts: seq<string>)
    ensures NonEmpty([p] + parts) == if p == "" then NonEmpty(parts) else [p] + NonEmpty(parts)
  {
    assert ([p] + parts)[1..] == parts;
  }

  /** A leading delimiter is skipped. */
  lemma {:induction false} SkipOne(s: string, delims: set<char>, offset: nat)
    requires offset < |s| && s[offset] in delims
    ensures Tokens(s[offset..], delims) == Tokens(s[offset + 1..], delims)
  {
    PiecesStep(s, delims, offset, None, FirstOf(s, delims, offset), s[offset..], s[offset + 1..]);
    assert s[offset..offset] == "";
    NonEmptyCons("", Pieces(s[offset + 1..], delims, None));
  }

  lemma {:induction false} SkipAll(s: string, delims: set<char>, offset: nat, n: nat)
    requires offset <= n <= |s| && forall j :: offset <= j < n ==> s[j] in delims
    ensures Tokens(s[offset..], delims) == Tokens(s[n..], delims)
    decreases n - offset
  {
    if offset < n {
      SkipOne(s, delims, offset);
      SkipAll(s, delims, offset + 1, n);
    }
  }

  /** A token runs to the next delimiter. */
  lemma {:induction false} TakeOne(s: string, delims: set<char>, n: nat)
    requires n < |s| && s[n] !in delims
    ensures var d := FirstOf(s, delims, n);
            d > n && Tokens(s[n..], delims) == [s[n..d]] + Tokens(s[d..], delims)
  {
    var d := FirstOf(s, delims, n);
    PiecesStep(s, delims, n, None, d, s[n..], if d < |s| then s[d + 1..] else "");
    assert s[n..d] != "" && |s[n..d]| == d - n;
    if d < |s| {
      NonEmptyCons(s[n..d], Pieces(s[d + 1..], delims, None));
      SkipOne(s, delims, d);
    } else {
      assert s[n..] == s[n..d] && s[d..] == "";
      NonEmptyCons(s[n..d], []);
      NonEmptyCons("", []);
      assert Pieces("", delims, None) == [""] + [];
      assert Pieces(s[n..], delims, None) == [s[n..d]] + [];
    }
  }

  /** The end of the string that begins with a token and holds these tokens. */
  ghost predicate Remainder(s: string, delims: set<char>, u: string, tokens: seq<string>) {
    0 < |u| <= |s| && s[|s| - |u|..] == u && u[0] !in delims && Tokens(u, delims) == tokens
  }

  /** All tokens if they are fewer than `max`; otherwise the first ones and, as the last of `max`, the remainder. */
  ghost predicate Limited(s: string, delims: set<char>, max: Option<nat>, tokens: seq<string>) {
    var all := Tokens(s, delims);
    if max.None? || |all| < max.value then tokens == all
    else
      && |tokens| == max.value
      && (max.value > 0 ==>
            && tokens[..max.value - 1] == all[..max.value - 1]
            && Remainder(s, delims, tokens[max.value - 1], all[max.value - 1..]))
  }

  lemma {:induction false} NoTokens(delims: set<char>)
    ensures Tokens("", delims) == []
  {
    NonEmptyCons("", []);
    assert Pieces("", delims, None) == [""] + [];
  }

  /** The last token, when no delimiter follows it. */
  lemma {:induction false} LastToken(s: string, delims: set<char>, n: nat)
    requires n < |s| && s[n] !in delims && FirstOf(s, delims, n) == |s|
    ensures Tokens(s[n..], delims) == [s[n..]]
  {
    TakeOne(s, delims, n);
    NoTokens(delims);
    assert s[|s|..] == "" && s[n..|s|] == s[n..];
  }

  /** Enough tokens have been found, and the remainder begins with the next one. */
  lemma {:induction false} LimitReached(s: string, delims: set<char>, max: nat, tokens: seq<string>, n: nat)
    requires n < |s| && s[n] !in delims && |tokens| + 1 == max
    requires tokens + Tokens(s[n..], delims) == Tokens(s, delims)
    ensures Limited(s, delims, Some(max), tokens + [s[n..]])
  {
    var all, u := Tokens(s, delims), s[n..];
    TakeOne(s, delims, n);
    assert s[|s| - |u|..] == u && u[0] == s[n];
    assert all[..max - 1] == tokens && all[max - 1..] == Tokens(u, delims);
    assert (tokens + [u])[..max - 1] == tokens;
  }

  /** `strings::tokenize` yields the non-empty pieces, or `maxTokens` tokens of which the last holds the remainder. */
  method Tokenize(s: string, delims: set<char>, maxTokens: Option<nat>) returns (tokens: seq<string>)
    ensures Limited(s, delims, maxTokens, tokens)
  {
    tokens := [];
    if maxTokens == Some(0) {
      return;
    }
    var offset := 0;
    assert s[offset..] == s;
    while true
      invariant offset <= |s|
      invariant tokens + Tokens(s[offset..], delims) == Tokens(s, delims)
      invariant maxTokens.Some? ==> |tokens| < maxTokens.value
      decreases |s| - offset
    {
      var nonDelim := FirstNotOf(s, delims, offset);
      SkipAll(s, delims, offset, nonDelim);
      if nonDelim == |s| {
        NoTokens(delims);
        assert s[nonDelim..] == "";
        return;
      }
      var delim := FirstOf(s, delims, nonDelim);
      TakeOne(s, delims, nonDelim);
      if delim == |s| || (maxTokens.Some? && |tokens| == maxTokens.value - 1) {
        if maxTokens.Some? && |tokens| == maxTokens.value - 1 {
          LimitReached(s, delims, maxTokens.value, tokens, nonDelim);
        } else {
          LastToken(s, delims, nonDelim);
        }
        return tokens + [s[nonDelim..]];
      }
      tokens := tokens + [s[nonDelim..delim]];
      offset := delim;
    }
  }

  /** Nothing else satisfies the contract. */
  lemma {:induction false} LimitedUnique(s: string, delims: set<char>, max: Option<nat>, a: seq<string>, b: seq<string>)
    requires Limited(s, delims, max, a) && Limited(s, delims, max, b)
    ensures a == b
  {
    var all := Tokens(s, delims);
    if max.Some? && |all| >= max.value && max.value > 0 {
      var m := max.value - 1;
      RemainderUnique(s, delims, a[m], b[m], all[m..]);
      RemainderUnique(s, delims, b[m], a[m], all[m..]);
      assert a == a[..m] + [a[m]] && b == b[..m] + [b[m]];
    }
  }

  /** A longer remainder would hold more, or its first token would be longer. */
  lemma {:induction false} RemainderUnique(s: string, delims: set<char>, u: string, v: string, tokens: seq<string>)
    requires Remainder(s, delims, u, tokens) && Remainder(s, delims, v, tokens)
    ensures |u| <= |v|
  {
    if |u| > |v| {
      var k := |u| - |v|;
      assert u[k..] == v;
      TotalLength(u, delims, k);
    }
  }

  ghost function Length(tokens: seq<string>): nat {
    if tokens == [] then 0 else |tokens[0]| + Length(tokens[1..])
  }

  /** Starting later loses a character of a token. */
  lemma {:induction false} TotalLength(u: string, delims: set<char>, k: nat)
    requires 0 < k <= |u| && u[0] !in delims
    ensures Length(Tokens(u[k..], delims)) < Length(Tokens(u, delims))
  {
    FewerFrom(u, delims, 1, k);
    FewerAt(u, delims, 0);
    assert u[0..] == u;
  }

  lemma {:induction false} FewerFrom(u: string, delims: set<char>, from: nat, k: nat)
    requires from <= k <= |u|
    ensures Length(Tokens(u[k..], delims)) <= Length(Tokens(u[from..], delims))
    decreases k - from
  {
    if from < k {
      FewerAt(u, delims, from);
      FewerFrom(u, delims, from + 1, k);
    }
  }

  lemma {:induction false} FewerAt(u: string, delims: set<char>, i: nat)
    requires i < |u|
    ensures Length(Tokens(u[i..], delims)) == Length(Tokens(u[i + 1..], delims)) + if u[i] in delims then 0 else 1
  {
    if u[i] in delims {
      SkipOne(u, delims, i);
    } else {
      var d := FirstOf(u, delims, i);
      TakeOne(u, delims, i);
      var rest := Tokens(u[d..], delims);
      assert ([u[i..d]] + rest)[1..] == rest;
      if i + 1 < |u| && u[i + 1] !in delims {
        TakeOne(u, delims, i + 1);
        FirstOfIs(u, delims, i + 1, d);
        assert ([u[i + 1..d]] + rest)[1..] == rest;
      } else {
        FirstOfIs(u, delims, i, i + 1);
      }
    }
  }

  // ------------------------------------------------------------ one delimiter

  function Fields(s: string, c: char): seq<string> { Pieces(s, {c}, None) }

  lemma {:induction false} FieldsConcat(a: string, c: char, b: string)
    ensures Fields(a + [c] + b, c) == Fields(a, c) + Fields(b, c)
    decreases |a|
  {
    var s := a + [c] + b;
    var i := FirstOf(a, {c}, 0);
    if i == |a| {
      FirstOfIs(s, {c}, 0, |a|);
      assert s[..|a|] == a && s[|a| + 1..] == b;
    } else {
      FirstOfIs(s, {c}, 0, i);
      assert s[..i] == a[..i];
      assert s[i + 1..] == a[i + 1..] + [c] + b;
      FieldsConcat(a[i + 1..], c, b);
    }
  }

  lemma {:induction false} JoinFields(s: string, c: char)
    ensures Fields(s, c) != [] && Join([c], Fields(s, c)) == s
    ensures forall p :: p in Fields(s, c) ==> c !in p
    decreases |s|
  {
    var i := FirstOf(s, {c}, 0);
    if i < |s| {
      var rest := s[i + 1..];
      JoinFields(rest, c);
      assert s == s[..i] + [c] + rest;
    }
  }

  lemma {:induction false} JoinConcat(sep: string, x: seq<string>, y: seq<string>)
    requires x != [] && y != []
    ensures Join(sep, x + y) == Join(sep, x) + sep + Join(sep, y)
    decreases |x|
  {
    if |x| == 1 {
      assert (x + y)[1..] == y;
    } else {
      assert (x + y)[1..] == x[1..] + y;
      JoinConcat(sep, x[1..], y);
    }
  }

  lemma {:induction false} FieldsJoin(parts: seq<string>, c: char)
    requires parts != [] && forall p :: p in parts ==> c !in p
    ensures Fields(Join([c], parts), c) == parts
    decreases |parts|
  {
    assert parts[0] in parts;
    if |parts| == 1 {
      assert parts == [parts[0]];
    } else {
      FieldsJoin(parts[1..], c);
      FieldsConcat(parts[0], c, Join([c], parts[1..]));
      assert FirstOf(parts[0], {c}, 0) == |parts[0]|;
      assert parts == [parts[0]] + parts[1..];
    }
  }
}
