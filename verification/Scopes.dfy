/** Write scopes: repository paths and the subtrees below them. */
module Scopes {
  import opened Splitting

  /** A path lies within a scope when it is the scope itself or below it. */
  predicate PathIsWithinScope(path: string, scope: string) {
    path == scope || scope + "/" <= path
  }

  predicate ScopesOverlap(left: seq<string>, right: seq<string>) {
    exists i, j :: 0 <= i < |left| && 0 <= j < |right| &&
      (PathIsWithinScope(left[i], right[j]) || PathIsWithinScope(right[j], left[i]))
  }

  // ----- paths as sequences of components

  /** The components of a path, between its slashes. */
  function Components(path: string): (components: seq<string>)
    ensures components != []
  {
    Parts(path, '/')
  }

  lemma BelowExtendsComponents(path: string, scope: string)
    requires PathIsWithinScope(path, scope)
    ensures Components(scope) <= Components(path)
  {
    if path != scope {
      var rest := path[|scope| + 1..];
      assert path == (scope + "/") + rest;
      assert (scope + "/") + rest == scope + ("/" + rest);
      PartsOfJoin(scope, rest, '/');
    }
  }

  lemma SlashFollows(scope: string, rest: string)
    ensures scope + "/" <= scope + ("/" + rest)
  {
    assert scope + ("/" + rest) == (scope + "/") + rest;
  }

  lemma JoinedExtends(a: seq<string>, b: seq<string>)
    requires a != [] && b != []
    ensures PathIsWithinScope(Joined(a + b, '/'), Joined(a, '/'))
  {
    JoinedAppend(a, b, '/');
    SlashFollows(Joined(a, '/'), Joined(b, '/'));
  }

  lemma ExtendedComponentsAreBelow(path: string, scope: string)
    requires Components(scope) <= Components(path)
    ensures PathIsWithinScope(path, scope)
  {
    var a, all := Components(scope), Components(path);
    var b := all[|a|..];
    JoinedParts(path, '/');
    JoinedParts(scope, '/');
    assert all == a + b;
    if b == [] {
      assert a + b == a;
    } else {
      JoinedExtends(a, b);
    }
  }

  /** The textual test compares whole components: a path lies within a scope exactly when
      the scope's components are the first components of the path. */
  lemma WithinIsPrefixOfComponents(path: string, scope: string)
    ensures PathIsWithinScope(path, scope) <==> Components(scope) <= Components(path)
  {
    if PathIsWithinScope(path, scope) {
      BelowExtendsComponents(path, scope);
    }
    if Components(scope) <= Components(path) {
      ExtendedComponentsAreBelow(path, scope);
    }
  }

  // ----- shared paths

  /** Some scope contains the path, component by component. */
  ghost predicate Covers(scopes: seq<string>, path: string) {
    exists i :: 0 <= i < |scopes| && Components(scopes[i]) <= Components(path)
  }

  /** Some path may be written under both scope lists. */
  ghost predicate ShareAPath(left: seq<string>, right: seq<string>) {
    exists path :: Covers(left, path) && Covers(right, path)
  }

  /** Two scopes that both contain one path are nested. */
  lemma CommonPathNests(path: string, a: string, b: string)
    requires Components(a) <= Components(path) && Components(b) <= Components(path)
    ensures Components(a) <= Components(b) || Components(b) <= Components(a)
  {
  }

  /** Scope lists overlap exactly when some path lies within both. */
  lemma OverlapIsSharedPath(left: seq<string>, right: seq<string>)
    ensures ScopesOverlap(left, right) <==> ShareAPath(left, right)
  {
    if ScopesOverlap(left, right) {
      var i, j :| 0 <= i < |left| && 0 <= j < |right| &&
        (PathIsWithinScope(left[i], right[j]) || PathIsWithinScope(right[j], left[i]));
      WithinIsPrefixOfComponents(left[i], right[j]);
      WithinIsPrefixOfComponents(right[j], left[i]);
      var path := if PathIsWithinScope(left[i], right[j]) then left[i] else right[j];
      assert Covers(left, path) && Covers(right, path);
    }
    if path :| Covers(left, path) && Covers(right, path) {
      var i :| 0 <= i < |left| && Components(left[i]) <= Components(path);
      var j :| 0 <= j < |right| && Components(right[j]) <= Components(path);
      CommonPathNests(path, left[i], right[j]);
      WithinIsPrefixOfComponents(left[i], right[j]);
      WithinIsPrefixOfComponents(right[j], left[i]);
    }
  }

  lemma OverlapIsSymmetric(left: seq<string>, right: seq<string>)
    ensures ScopesOverlap(left, right) <==> ScopesOverlap(right, left)
  {
    OverlapIsSharedPath(left, right);
    OverlapIsSharedPath(right, left);
  }
}
