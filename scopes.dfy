/**
  `Token::can` and `Token::resolveInheritedScopes`: whether a token's granted scopes cover a
  requested scope, where scopes may be `:`-separated paths and a granted path also covers
  everything below it.
 */
module Scopes {
  import opened Schema

  /** `explode(':', s)`: the `:`-separated segments of `s`, empty ones included. */
  function Split(s: string): (parts: seq<string>)
    ensures |parts| >= 1
    ensures forall i :: 0 <= i < |parts| ==> ':' !in parts[i]
  {
    if s == [] then [""]
    else
      var rest := Split(s[1..]);
      if s[0] == ':' then [""] + rest
      else [[s[0]] + rest[0]] + rest[1..]
  }

  /** `implode(':', parts)`. */
  function Join(parts: seq<string>): string
    requires |parts| >= 1
  {
    if |parts| == 1 then parts[0] else parts[0] + ":" + Join(parts[1..])
  }

  /** `p` is `s` cut at a segment boundary: `s` itself, or the part of `s` before one of its `:`. */
  predicate BoundaryPrefix(p: string, s: string)
  {
    |p| <= |s| && p == s[..|p|] && (|p| == |s| || s[|p|] == ':')
  }

  /**
    The reference meaning of `can`: `*` grants everything; otherwise the requested scope must
    be granted itself or, with inherited scopes on, through one of its boundary prefixes.
   */
  predicate Authorizes(granted: seq<string>, scope: string, withInheritedScopes: bool)
  {
    || "*" in granted
    || (withInheritedScopes && exists p :: p in granted && BoundaryPrefix(p, scope))
    || (!withInheritedScopes && scope in granted)
  }

  /** Joining the segments gives back the scope. */
  lemma {:induction false} JoinSplit(s: string)
    ensures Join(Split(s)) == s
  {
    if s != [] {
      JoinSplit(s[1..]);
      var rest := Split(s[1..]);
      var parts := Split(s);
      assert s == [s[0]] + s[1..];
      if s[0] == ':' {
        assert parts == [""] + rest && parts[1..] == rest;
      } else {
        assert parts == [[s[0]] + rest[0]] + rest[1..];
        if |rest| > 1 {
          assert parts[1..] == rest[1..];
          assert Join(parts) == ([s[0]] + rest[0]) + ":" + Join(rest[1..]);
        }
      }
    }
  }

  /** Cutting the segment list after segment `k` cuts the joined text at a `:`. */
  lemma {:induction false} JoinAt(parts: seq<string>, k: nat)
    requires 1 <= k < |parts|
    ensures Join(parts) == Join(parts[..k]) + ":" + Join(parts[k..])
  {
    if k == 1 {
      assert parts[..1] == [parts[0]];
    } else {
      var tail := parts[1..];
      JoinAt(tail, k - 1);
      assert tail[..k - 1] == parts[..k][1..];
      assert tail[k - 1..] == parts[k..];
    }
  }

  /** Every `:` of a joined text, and its end, is where some leading run of segments ends. */
  lemma {:induction false} BoundaryIsJoinedPrefix(parts: seq<string>, i: nat)
    requires |parts| >= 1
    requires forall j :: 0 <= j < |parts| ==> ':' !in parts[j]
    requires i <= |Join(parts)|
    requires i == |Join(parts)| || Join(parts)[i] == ':'
    ensures exists k :: 1 <= k <= |parts| && |Join(parts[..k])| == i
  {
    assert parts[..1] == [parts[0]];
    if |parts| == 1 {
      assert parts[..1] == parts;
    } else {
      var tail := parts[1..];
      var head := parts[0];
      assert Join(parts) == head + ":" + Join(tail);
      if i > |head| {
        var i' := i - |head| - 1;
        assert i' == |Join(tail)| || Join(tail)[i'] == Join(parts)[i];
        assert forall j :: 0 <= j < |tail| ==> tail[j] == parts[j + 1];
        BoundaryIsJoinedPrefix(tail, i');
        var k' :| 1 <= k' <= |tail| && |Join(tail[..k'])| == i';
        assert parts[..k' + 1][1..] == tail[..k'];
        assert |Join(parts[..k' + 1])| == i;
      }
    }
  }

  /** The entries `resolveInheritedScopes` builds are exactly the boundary prefixes of the scope. */
  lemma EntriesAreBoundaryPrefixes(s: string)
    ensures forall k :: 1 <= k <= |Split(s)| ==> BoundaryPrefix(Join(Split(s)[..k]), s)
    ensures forall p :: BoundaryPrefix(p, s) ==> exists k :: 1 <= k <= |Split(s)| && Join(Split(s)[..k]) == p
  {
    var parts := Split(s);
    JoinSplit(s);
    forall k | 1 <= k <= |parts| ensures BoundaryPrefix(Join(parts[..k]), s) {
      if k < |parts| {
        JoinAt(parts, k);
      } else {
        assert parts[..k] == parts;
      }
    }
    forall p | BoundaryPrefix(p, s) ensures exists k :: 1 <= k <= |parts| && Join(parts[..k]) == p {
      BoundaryIsJoinedPrefix(parts, |p|);
      var k :| 1 <= k <= |parts| && |Join(parts[..k])| == |p|;
      assert BoundaryPrefix(Join(parts[..k]), s);
    }
  }

  /** Each entry extends the one before it by a `:` and the next segment. */
  lemma NextEntry(s: string, k: nat)
    requires 1 <= k < |Split(s)|
    ensures Join(Split(s)[..k + 1]) == Join(Split(s)[..k]) + ":" + Split(s)[k]
  {
    var parts := Split(s)[..k + 1];
    JoinAt(parts, k);
    assert parts[..k] == Split(s)[..k];
    assert parts[k..] == [Split(s)[k]];
  }

  /**
    `resolveInheritedScopes`: for each `i` from 1 to the number of segments, the first `i`
    segments joined by `:`.
   */
  method ResolveInheritedScopes(scope: string) returns (scopes: seq<string>)
    ensures |scopes| == |Split(scope)|
    ensures forall k :: 0 <= k < |scopes| ==> scopes[k] == Join(Split(scope)[..k + 1])
    ensures scopes[|scopes| - 1] == scope
    ensures forall k :: 0 <= k < |scopes| - 1 ==> scopes[k + 1] == scopes[k] + ":" + Split(scope)[k + 1]
    ensures forall p :: p in scopes <==> BoundaryPrefix(p, scope)
    ensures scope == "" ==> scopes == [""]
  {
    var parts := Split(scope);
    var partsCount := |parts|;
    scopes := [];
    for i := 1 to partsCount + 1
      invariant |scopes| == i - 1
      invariant forall k :: 0 <= k < i - 1 ==> scopes[k] == Join(parts[..k + 1])
    {
      scopes := scopes + [Join(parts[..i])];
    }
    JoinSplit(scope);
    assert parts[..partsCount] == parts;
    EntriesAreBoundaryPrefixes(scope);
    forall k | 0 <= k < |scopes| - 1
      ensures scopes[k + 1] == scopes[k] + ":" + parts[k + 1]
    {
      NextEntry(scope, k + 1);
    }
    forall p | BoundaryPrefix(p, scope) ensures p in scopes {
      var k :| 1 <= k <= |parts| && Join(parts[..k]) == p;
      assert scopes[k - 1] == p;
    }
  }

  /** `can`: `*` among the token's scopes, or one of the candidate scopes among them. */
  method Can(token: Token, scope: string, withInheritedScopes: bool) returns (r: bool)
    ensures r == Authorizes(token.scopes, scope, withInheritedScopes)
  {
    if "*" in token.scopes {
      return true;
    }
    var scopes: seq<string>;
    if withInheritedScopes {
      scopes := ResolveInheritedScopes(scope);
    } else {
      scopes := [scope];
    }
    for i := 0 to |scopes|
      invariant forall k :: 0 <= k < i ==> scopes[k] !in token.scopes
    {
      if scopes[i] in token.scopes {
        return true;
      }
    }
    assert forall p :: p in scopes ==> p !in token.scopes;
    return false;
  }

  /** `cant` is the negation of `can`. */
  method Cant(token: Token, scope: string, withInheritedScopes: bool) returns (r: bool)
    ensures r == !Authorizes(token.scopes, scope, withInheritedScopes)
  {
    var can := Can(token, scope, withInheritedScopes);
    r := !can;
  }

  /** Granting a scope grants every scope below it. */
  lemma AncestorGrantCoversDescendant(granted: seq<string>, ancestor: string, below: string)
    requires ancestor in granted
    ensures Authorizes(granted, ancestor + ":" + below, true)
  {
    var s := ancestor + ":" + below;
    assert s[..|ancestor|] == ancestor && s[|ancestor|] == ':';
    assert BoundaryPrefix(ancestor, s);
  }

  /** Granting only scopes longer than the requested one never covers it (unless `*`). */
  lemma DescendantGrantDoesNotCoverAncestor(granted: seq<string>, scope: string, withInheritedScopes: bool)
    requires "*" !in granted
    requires forall g :: g in granted ==> |g| > |scope|
    ensures !Authorizes(granted, scope, withInheritedScopes)
  {
  }

  /** Without inherited scopes only an exact grant (or `*`) covers a scope. */
  lemma FlatScopesAreExact(granted: seq<string>, scope: string)
    ensures Authorizes(granted, scope, false) <==> "*" in granted || scope in granted
  {
  }

  /** `a:b` covers `a:b:c`; `a:b:c` does not cover `a:b`; `a:b` does not cover `a:bc`. */
  lemma HierarchyExamples()
    ensures Authorizes(["a:b"], "a:b:c", true)
    ensures !Authorizes(["a:b:c"], "a:b", true)
    ensures !Authorizes(["a:b"], "a:bc", true)
  {
    AncestorGrantCoversDescendant(["a:b"], "a:b", "c");
  }
}
