/**
 Resolving a type name against the table of visible types: the enclosing scopes are
 tried from the inside out, and the search commits to the first one that holds the
 full name or its first component.
 */
module NameResolution {
  import opened Wrappers

  /** The keys of the table of visible types: fully qualified, each with a leading dot. */
  type Names = set<string>

  function FirstDot(s: string): (r: Option<nat>)
    ensures r.Some? ==> r.value < |s| && s[r.value] == '.' && '.' !in s[..r.value]
    ensures r.None? ==> '.' !in s
  {
    if s == "" then None
    else if s[0] == '.' then Some(0)
    else
      match FirstDot(s[1..])
      case None => None
      case Some(i) => assert s[..i + 1] == [s[0]] + s[1..][..i]; Some(i + 1)
  }

  function LastDot(s: string): (r: Option<nat>)
    ensures r.Some? ==> r.value < |s| && s[r.value] == '.' && forall k :: r.value < k < |s| ==> s[k] != '.'
    ensures r.None? ==> forall k :: 0 <= k < |s| ==> s[k] != '.'
  {
    if s == "" then None else if s[|s| - 1] == '.' then Some(|s| - 1) else LastDot(s[..|s| - 1])
  }

  function FirstPart(name: string): string {
    match FirstDot(name)
    case None => name
    case Some(i) => name[..i]
  }

  lemma {:induction false} FirstDotAt(s: string, k: nat)
    requires k < |s| && s[k] == '.' && '.' !in s[..k]
    ensures FirstDot(s) == Some(k)
  {
    if k > 0 {
      assert s[..k][0] == s[0];
      assert s[..k][1..] == s[1..][..k - 1];
      FirstDotAt(s[1..], k - 1);
    }
  }

  /** The first component is what comes before the first dot, or the whole name. */
  lemma {:induction false} FirstPartExactly(name: string, p: string)
    ensures p == FirstPart(name) <==> '.' !in p && (p == name || p + "." <= name)
  {
    hide FirstDot;
    if '.' !in p && p + "." <= name {
      assert name[|p|] == '.' && name[..|p|] == p;
      FirstDotAt(name, |p|);
    }
    if FirstDot(name).Some? {
      var i := FirstDot(name).value;
      assert name[..i] + "." == name[..i + 1];
    }
  }

  predicate Compound(name: string) {
    FirstDot(name).Some?
  }

  predicate Absolute(name: string) {
    name != "" && name[0] == '.'
  }

  // ---------------------------------------------------------------------------
  // Scopes
  // ---------------------------------------------------------------------------

  /** The scopes around and including s, innermost first; the root is not one of them. */
  function Scopes(s: string): seq<string>
    decreases |s|
  {
    if s == "" then []
    else
      match LastDot(s)
      case None => [s]
      case Some(i) => [s] + Scopes(s[..i])
  }

  /** t encloses s: it is s, or s goes on with a dot after it. */
  predicate Encloses(t: string, s: string) {
    t != "" && (t == s || t + "." <= s)
  }

  /** The scopes searched are exactly the enclosing ones. */
  lemma {:induction false} ScopesEnclose(s: string, t: string)
    ensures t in Scopes(s) <==> Encloses(t, s)
    decreases |s|
  {
    hide LastDot;
    if s != "" && LastDot(s).Some? {
      var i := LastDot(s).value;
      ScopesEnclose(s[..i], t);
      ShorterEncloses(s, t, i);
    } else {
      OuterHasDot(s, t);
    }
  }

  lemma {:induction false} OuterHasDot(s: string, t: string)
    ensures t + "." <= s ==> '.' in s
  {
    if t + "." <= s {
      assert s[|t|] == '.';
    }
  }

  lemma {:induction false} ShorterEncloses(s: string, t: string, i: nat)
    requires i < |s| && s[i] == '.' && forall k :: i < k < |s| ==> s[k] != '.'
    ensures Encloses(t, s) && t != s <==> Encloses(t, s[..i])
  {
    if t + "." <= s {
      assert s[|t|] == '.';
      assert |t| < i ==> t + "." <= s[..i];
      assert |t| == i ==> t == s[..i];
    }
    if t == s[..i] {
      assert t + "." == s[..i + 1];
    }
    if t + "." <= s[..i] {
      assert t + "." <= s;
    }
  }

  /** Inner scopes come first. */
  lemma {:induction false} ScopesShrink(s: string, i: nat, j: nat)
    requires i < j < |Scopes(s)|
    ensures |Scopes(s)[j]| < |Scopes(s)[i]| <= |s|
    decreases |s|
  {
    hide LastDot;
    var rest := Scopes(s)[1..];
    if i > 0 {
      ScopesShrink(s[..LastDot(s).value], i - 1, j - 1);
    } else if j > 1 {
      ScopesShrink(s[..LastDot(s).value], 0, j - 1);
    }
  }

  // ---------------------------------------------------------------------------
  // Resolution
  // ---------------------------------------------------------------------------

  /** The scope holds the name as a whole. */
  predicate HoldsName(scope: string, name: string, types: Names) {
    scope + "." + name in types
  }

  /** The scope holds the name's first component. */
  predicate HoldsFirst(scope: string, name: string, types: Names) {
    scope + "." + FirstPart(name) in types
  }

  predicate Stops(scope: string, name: string, types: Names) {
    HoldsName(scope, name, types) || HoldsFirst(scope, name, types)
  }

  /** scope is the innermost enclosing scope of from that the search stops at. */
  ghost predicate Commits(from: string, scope: string, name: string, types: Names) {
    && Encloses(scope, from) && Stops(scope, name, types)
    && forall t :: Encloses(t, from) && |t| > |scope| ==> !Stops(t, name, types)
  }

  ghost predicate NoScope(from: string, name: string, types: Names) {
    forall t :: Encloses(t, from) ==> !Stops(t, name, types)
  }

  /**
   A name is found in the innermost scope that has it or its first component. That scope
   having the first component only is a shadow, and the name stays unresolved; with no
   such scope the name is taken from the root.
   */
  method ResolveTypeName(name: string, scope: string, types: Names) returns (resolved: string, shadow: string)
    ensures Absolute(name) ==> resolved == name && shadow == ""
    ensures !Absolute(name) && NoScope(scope, name, types) ==> resolved == "." + name && shadow == ""
    ensures !Absolute(name) ==> forall s :: Commits(scope, s, name, types) ==>
              if HoldsName(s, name, types) then resolved == s + "." + name && shadow == ""
              else resolved == "." + name && shadow == s + "." + name
    ensures shadow != "" <==>
              !Absolute(name) && exists s :: Commits(scope, s, name, types) && !HoldsName(s, name, types)
  {
    hide FirstDot, LastDot, Encloses;
    if name != "" && name[0] == '.' {
      return name, "";
    }
    var firstPart := FirstPart(name);
    var s := scope;
    ghost var i := 0;
    while s != ""
      invariant 0 <= i <= |Scopes(scope)| && Scopes(s) == Scopes(scope)[i..]
      invariant forall k :: 0 <= k < i ==> !Stops(Scopes(scope)[k], name, types)
      decreases |s|
    {
      assert Scopes(s)[0] == s == Scopes(scope)[i];
      if Compound(name) && s + "." + name in types {
        CommitsHere(scope, i, name, types);
        return s + "." + name, "";
      }
      if s + "." + firstPart in types {
        CommitsHere(scope, i, name, types);
        if Compound(name) {
          return "." + name, s + "." + name;
        }
        SimpleName(name);
        return s + "." + firstPart, "";
      }
      assert !Stops(s, name, types) by {
        SimpleName(name);
      }
      var lastDot := LastDot(s);
      i := i + 1;
      if lastDot.None? {
        break;
      }
      s := s[..lastDot.value];
    }
    NothingCommits(scope, name, types);
    // The root is only asked for the full name, and the answer is the same either way.
    resolved, shadow := "." + name, "";
  }

  lemma {:induction false} SimpleName(name: string)
    ensures !Compound(name) ==> FirstPart(name) == name
  {
  }

  /** The i-th scope stops the search and no inner one does: it is the only one committed to. */
  lemma {:induction false} CommitsHere(from: string, i: nat, name: string, types: Names)
    requires i < |Scopes(from)| && Stops(Scopes(from)[i], name, types)
    requires forall k :: 0 <= k < i ==> !Stops(Scopes(from)[k], name, types)
    ensures forall s :: Commits(from, s, name, types) <==> s == Scopes(from)[i]
    ensures !NoScope(from, name, types)
  {
    hide Scopes, Encloses, Stops;
    var s := Scopes(from)[i];
    ScopesEnclose(from, s);
    forall t | Encloses(t, from) && Stops(t, name, types)
      ensures t == s || |t| < |s|
    {
      ScopesEnclose(from, t);
      var k :| 0 <= k < |Scopes(from)| && Scopes(from)[k] == t;
      if k > i {
        ScopesShrink(from, i, k);
      }
    }
  }

  lemma {:induction false} NothingCommits(from: string, name: string, types: Names)
    requires forall k :: 0 <= k < |Scopes(from)| ==> !Stops(Scopes(from)[k], name, types)
    ensures NoScope(from, name, types) && forall s :: !Commits(from, s, name, types)
  {
    hide Scopes, Encloses, Stops;
    forall t | Encloses(t, from)
      ensures !Stops(t, name, types)
    {
      ScopesEnclose(from, t);
    }
  }
}
