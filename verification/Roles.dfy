/** Roles and their hierarchy (liburb/source/roles.cpp). */
module Roles {
  import opened Strings
  import opened Wrappers

  /** `roles::isStrictSubroleOf` */
  predicate IsStrictSubroleOf(left: string, right: string) {
    |left| > |right| && left[|right|] == '/' && right <= left
  }

  const INVALID_CHARACTERS: set<char> := {'\t', '\n', '\U{0b}', '\U{0c}', '\r', ' ', '\U{7f}'}

  predicate BadComponent(c: string) {
    || c == "." || c == ".." || c == "*"
    || (c != "" && c[0] == '-')
    || exists i :: 0 <= i < |c| && c[i] in INVALID_CHARACTERS
  }

  predicate HasDoubleSlash(s: string) {
    exists i :: 0 <= i < |s| - 1 && s[i] == '/' && s[i + 1] == '/'
  }

  /** `roles::validate` finds no error. */
  predicate ValidRole(role: string) {
    role == "*" ||
    (&& !(role != "" && role[0] == '/')
     && !(role != "" && role[|role| - 1] == '/')
     && !HasDoubleSlash(role)
     && var components := NonEmpty(Pieces(role, {'/'}, None));
        components != [] && forall i :: 0 <= i < |components| ==> !BadComponent(components[i]))
  }

  /** The path of a role. */
  function Path(role: string): seq<string> { Fields(role, '/') }

  // ------------------------------------------------------------ the hierarchy

  /** A strict subrole is exactly a role whose path properly extends the other's, whatever the two strings. */
  lemma {:induction false} SubroleIsProperPrefix(left: string, right: string)
    ensures IsStrictSubroleOf(left, right) <==> Path(right) < Path(left)
  {
    if IsStrictSubroleOf(left, right) {
      var rest := left[|right| + 1..];
      assert left == right + ['/'] + rest;
      FieldsConcat(right, '/', rest);
      JoinFields(rest, '/');
    }
    if Path(right) < Path(left) {
      var tail := Path(left)[|Path(right)|..];
      assert Path(left) == Path(right) + tail;
      JoinFields(left, '/');
      JoinFields(right, '/');
      JoinConcat("/", Path(right), tail);
      assert left == right + "/" + Join("/", tail);
    }
  }

  /** Hence the hierarchy is a strict partial order, and the roles above a role form a chain. */
  lemma {:induction false} SubroleIsStrictOrder(a: string, b: string, c: string)
    ensures !IsStrictSubroleOf(a, a)
    ensures IsStrictSubroleOf(a, b) ==> !IsStrictSubroleOf(b, a)
    ensures IsStrictSubroleOf(a, b) && IsStrictSubroleOf(b, c) ==> IsStrictSubroleOf(a, c)
    ensures IsStrictSubroleOf(a, b) && IsStrictSubroleOf(a, c) ==>
              b == c || IsStrictSubroleOf(b, c) || IsStrictSubroleOf(c, b)
  {
    SubroleIsProperPrefix(a, b);
    SubroleIsProperPrefix(b, c);
    SubroleIsProperPrefix(a, c);
    SubroleIsProperPrefix(c, b);
    if Path(b) < Path(a) && Path(c) < Path(a) {
      JoinFields(b, '/');
      JoinFields(c, '/');
      var x, y := Path(b), Path(c);
      if |x| <= |y| { assert x == y[..|x|]; assert |x| == |y| ==> x == y; }
      else { assert y == x[..|y|]; }
    }
  }

  // ------------------------------------------------------------ validation

  /** A piece is empty exactly when slashes lead, trail or are doubled. */
  lemma {:induction false} EmptyPieces(s: string)
    ensures "" in Path(s) <==> s == "" || s[0] == '/' || s[|s| - 1] == '/' || HasDoubleSlash(s)
    decreases |s|
  {
    var i := FirstOf(s, {'/'}, 0);
    if i == |s| {
      assert Path(s) == [s];
      if s != "" { assert s[0] != '/' && s[|s| - 1] != '/'; }
    } else {
      var rest := s[i + 1..];
      EmptyPieces(rest);
      assert Path(s) == [s[..i]] + Path(rest);
      assert s[..i] == "" <==> i == 0;
      assert "" in Path(s) <==> i == 0 || "" in Path(rest);
      if HasDoubleSlash(rest) {
        var k :| 0 <= k < |rest| - 1 && rest[k] == '/' && rest[k + 1] == '/';
        assert s[k + i + 1] == '/' && s[k + i + 1 + 1] == '/';
      }
      if rest != "" && rest[0] == '/' { assert s[i] == '/' && s[i + 1] == '/'; }
      if HasDoubleSlash(s) && i > 0 {
        var k :| 0 <= k < |s| - 1 && s[k] == '/' && s[k + 1] == '/';
        assert k >= i;
        if k == i { assert rest[0] == '/'; }
        else { assert rest[k - i - 1] == '/' && rest[k - i - 1 + 1] == '/'; }
      }
      if rest != "" { assert rest[|rest| - 1] == s[|s| - 1]; }
    }
  }

  lemma {:induction false} NonEmptyAll(parts: seq<string>)
    requires "" !in parts
    ensures NonEmpty(parts) == parts
  {
    if parts != [] {
      assert parts[0] in parts && forall p :: p in parts[1..] ==> p in parts;
      NonEmptyAll(parts[1..]);
      assert parts == [parts[0]] + parts[1..];
    }
  }

  lemma {:induction false} NonEmptyEmpty(parts: seq<string>)
    requires forall p :: p in parts ==> p == ""
    ensures NonEmpty(parts) == []
  {
    if parts != [] {
      assert parts[0] in parts && forall p :: p in parts[1..] ==> p in parts;
      NonEmptyEmpty(parts[1..]);
    }
  }

  /** `validate` accepts exactly "*" and the paths all of whose components are good. */
  lemma {:induction false} ValidRoleMeaning(role: string)
    ensures ValidRole(role) <==> role == "*" || forall c :: c in Path(role) ==> c != "" && !BadComponent(c)
  {
    EmptyPieces(role);
    if "" !in Path(role) {
      NonEmptyAll(Path(role));
      JoinFields(role, '/');
    } else if role == "" {
      assert Path("") == [""];
      NonEmptyEmpty([""]);
    }
  }

  /** On valid roles the components that were checked are the path itself. */
  lemma {:induction false} ValidRolePath(role: string)
    requires ValidRole(role)
    ensures NonEmpty(Pieces(role, {'/'}, None)) == Path(role)
  {
    ValidRoleMeaning(role);
    if role == "*" {
      assert Path("*") == ["*"];
    }
    NonEmptyAll(Path(role));
  }
}
