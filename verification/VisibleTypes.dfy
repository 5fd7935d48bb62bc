/**
 Which types a file sees: its own, those of its imports, and those of files its
 imports reach along public imports. Import graphs may be cyclic.
 */
module VisibleTypes {

  datatype TypeKind = MessageType | EnumType

  datatype Message = Message(name: string, enums: seq<string>, nested: seq<Message>)

  /** publicDependency holds positions in dependency. */
  datatype File = File(
    name: string,
    package: string,
    messages: seq<Message>,
    enums: seq<string>,
    dependency: seq<string>,
    publicDependency: seq<nat>)

  type Files = map<string, File>

  function Prefix(fd: File): string {
    if fd.package != "" then "." + fd.package else ""
  }

  /** Messages under prefix declare n as a type of kind k. */
  predicate Declare(msgs: seq<Message>, prefix: string, n: string, k: TypeKind)
    decreases msgs
  {
    exists i :: 0 <= i < |msgs| && MessageDeclares(msgs[i], prefix + "." + msgs[i].name, n, k)
  }

  predicate MessageDeclares(m: Message, fullName: string, n: string, k: TypeKind)
    decreases m
  {
    || (n == fullName && k == MessageType)
    || (EnumDeclared(m.enums, fullName, n) && k == EnumType)
    || Declare(m.nested, fullName, n, k)
  }

  predicate EnumDeclared(enums: seq<string>, prefix: string, n: string) {
    exists i :: 0 <= i < |enums| && n == prefix + "." + enums[i]
  }

  predicate FileDeclares(fd: File, n: string, k: TypeKind) {
    var prefix := if fd.package == "" then "" else "." + fd.package;
    Declare(fd.messages, prefix, n, k) || (EnumDeclared(fd.enums, prefix, n) && k == EnumType)
  }

  /** a publicly imports b. */
  predicate PublicImport(all: Files, a: string, b: string) {
    a in all &&
    exists i :: 0 <= i < |all[a].publicDependency| && all[a].publicDependency[i] < |all[a].dependency|
                && all[a].dependency[all[a].publicDependency[i]] == b
  }

  predicate PublicPath(all: Files, p: seq<string>) {
    p != [] && forall i :: 0 <= i < |p| - 1 ==> PublicImport(all, p[i], p[i + 1])
  }

  /** x is one of froms or reached from one along public imports. */
  ghost predicate Reached(all: Files, froms: seq<string>, x: string) {
    exists p :: PublicPath(all, p) && p[0] in froms && p[|p| - 1] == x
  }

  /** The file x, if it is fd or one it sees. */
  ghost predicate Sees(fd: File, all: Files, x: string, seen: File) {
    (x == fd.name && seen == fd) || (x in all && seen == all[x] && Reached(all, fd.dependency, x))
  }

  ghost predicate TypeVisible(fd: File, all: Files, n: string, k: TypeKind) {
    exists x, seen :: Sees(fd, all, x, seen) && FileDeclares(seen, n, k)
  }

  lemma {:induction false} ReachedStep(all: Files, froms: seq<string>, a: string, b: string)
    requires Reached(all, froms, a) && PublicImport(all, a, b)
    ensures Reached(all, froms, b)
  {
    hide PublicImport;
    var p :| PublicPath(all, p) && p[0] in froms && p[|p| - 1] == a;
    var q := p + [b];
    assert PublicPath(all, q) && q[0] in froms && q[|q| - 1] == b;
  }

  lemma {:induction false} ReachedStart(all: Files, froms: seq<string>, a: string)
    requires a in froms
    ensures Reached(all, froms, a)
  {
    assert PublicPath(all, [a]) && [a][0] in froms && [a][|[a]| - 1] == a;
  }

  // ---------------------------------------------------------------------------
  // The types of one file, later declarations of a name winning
  // ---------------------------------------------------------------------------

  function EnumTypes(enums: seq<string>, prefix: string): map<string, TypeKind> {
    if enums == [] then map[] else map[prefix + "." + enums[0] := EnumType] + EnumTypes(enums[1..], prefix)
  }

  function TypesOf(msgs: seq<Message>, prefix: string): map<string, TypeKind>
    decreases msgs
  {
    if msgs == [] then map[]
    else TypesOfMessage(msgs[0], prefix + "." + msgs[0].name) + TypesOf(msgs[1..], prefix)
  }

  function TypesOfMessage(m: Message, fullName: string): map<string, TypeKind>
    decreases m
  {
    map[fullName := MessageType] + EnumTypes(m.enums, fullName) + TypesOf(m.nested, fullName)
  }

  function FileTypes(fd: File): map<string, TypeKind> {
    TypesOf(fd.messages, Prefix(fd)) + EnumTypes(fd.enums, Prefix(fd))
  }

  lemma {:induction false} EnumTypesListed(enums: seq<string>, prefix: string, n: string)
    ensures n in EnumTypes(enums, prefix) <==> EnumDeclared(enums, prefix, n)
    ensures n in EnumTypes(enums, prefix) ==> EnumTypes(enums, prefix)[n] == EnumType
  {
    if enums != [] {
      EnumTypesListed(enums[1..], prefix, n);
      if EnumDeclared(enums[1..], prefix, n) {
        var i :| 0 <= i < |enums[1..]| && n == prefix + "." + enums[1..][i];
        assert n == prefix + "." + enums[i + 1];
      }
      if EnumDeclared(enums, prefix, n) {
        var i :| 0 <= i < |enums| && n == prefix + "." + enums[i];
        assert i > 0 ==> n == prefix + "." + enums[1..][i - 1];
      }
    }
  }

  lemma {:induction false} TypesListed(msgs: seq<Message>, prefix: string, n: string, k: TypeKind)
    ensures Declare(msgs, prefix, n, k) ==> n in TypesOf(msgs, prefix)
    ensures n in TypesOf(msgs, prefix) ==> Declare(msgs, prefix, n, TypesOf(msgs, prefix)[n])
    decreases msgs
  {
    hide MessageDeclares, TypesOfMessage;
    if msgs != [] {
      var fullName := prefix + "." + msgs[0].name;
      MessageTypesListed(msgs[0], fullName, n, k);
      TypesListed(msgs[1..], prefix, n, k);
      DeclareSplit(msgs, prefix, n, k);
      if n in TypesOf(msgs, prefix) {
        DeclareSplit(msgs, prefix, n, TypesOf(msgs, prefix)[n]);
      }
    }
  }

  lemma {:induction false} DeclareSplit(msgs: seq<Message>, prefix: string, n: string, k: TypeKind)
    requires msgs != []
    ensures Declare(msgs, prefix, n, k)
       <==> MessageDeclares(msgs[0], prefix + "." + msgs[0].name, n, k) || Declare(msgs[1..], prefix, n, k)
  {
    hide MessageDeclares;
    if Declare(msgs, prefix, n, k) {
      var i :| 0 <= i < |msgs| && MessageDeclares(msgs[i], prefix + "." + msgs[i].name, n, k);
      assert i > 0 ==> msgs[i] == msgs[1..][i - 1];
    }
    if Declare(msgs[1..], prefix, n, k) {
      var i :| 0 <= i < |msgs[1..]| && MessageDeclares(msgs[1..][i], prefix + "." + msgs[1..][i].name, n, k);
      assert msgs[i + 1] == msgs[1..][i];
    }
  }

  lemma {:induction false} MessageTypesListed(m: Message, fullName: string, n: string, k: TypeKind)
    ensures MessageDeclares(m, fullName, n, k) ==> n in TypesOfMessage(m, fullName)
    ensures n in TypesOfMessage(m, fullName) ==> MessageDeclares(m, fullName, n, TypesOfMessage(m, fullName)[n])
    decreases m
  {
    hide Declare, TypesOf, EnumTypes, EnumDeclared;
    EnumTypesListed(m.enums, fullName, n);
    TypesListed(m.nested, fullName, n, k);
  }

  /** The table of one file lists exactly its messages and enums, at every depth. */
  lemma {:induction false} FileTypesListed(fd: File, n: string, k: TypeKind)
    ensures FileDeclares(fd, n, k) ==> n in FileTypes(fd)
    ensures n in FileTypes(fd) ==> FileDeclares(fd, n, FileTypes(fd)[n])
  {
    hide Declare, TypesOf, EnumTypes, EnumDeclared;
    EnumTypesListed(fd.enums, Prefix(fd), n);
    TypesListed(fd.messages, Prefix(fd), n, k);
  }

  // ---------------------------------------------------------------------------

  class TypeTable {
    var types: map<string, TypeKind>
    var visited: set<string>

    constructor ()
      ensures types == map[] && visited == {}
    {
      types, visited := map[], {};
    }

    method CollectEnums(enums: seq<string>, prefix: string)
      modifies this`types
      ensures types == old(types) + EnumTypes(enums, prefix)
    {
      hide EnumTypes;
      assert enums[0..] == enums;
      for i := 0 to |enums|
        invariant types + EnumTypes(enums[i..], prefix) == old(types) + EnumTypes(enums, prefix)
      {
        assert enums[i..][1..] == enums[i + 1..];
        EnumStep(types, enums[i..], prefix);
        types := types[prefix + "." + enums[i] := EnumType];
      }
      assert enums[|enums|..] == [];
      NoEnums(types, prefix);
    }

    method CollectTypes(msgs: seq<Message>, prefix: string)
      modifies this`types
      ensures types == old(types) + TypesOf(msgs, prefix)
      decreases msgs
    {
      hide TypesOfMessage;
      assert msgs[0..] == msgs;
      for i := 0 to |msgs|
        invariant types + TypesOf(msgs[i..], prefix) == old(types) + TypesOf(msgs, prefix)
      {
        assert msgs[i..][1..] == msgs[i + 1..];
        var fullName := prefix + "." + msgs[i].name;
        AddAdd(types, TypesOfMessage(msgs[i], fullName), TypesOf(msgs[i + 1..], prefix));
        CollectMessage(msgs[i], fullName);
      }
    }

    method CollectMessage(m: Message, fullName: string)
      modifies this`types
      ensures types == old(types) + TypesOfMessage(m, fullName)
      decreases m
    {
      hide EnumTypes, TypesOf;
      MessageStep(types, m, fullName);
      types := types[fullName := MessageType];
      CollectEnums(m.enums, fullName);
      CollectTypes(m.nested, fullName);
    }

    method CollectFile(fd: File)
      modifies this`types
      ensures types == old(types) + FileTypes(fd)
    {
      hide EnumTypes, TypesOf;
      AddAdd(types, TypesOf(fd.messages, Prefix(fd)), EnumTypes(fd.enums, Prefix(fd)));
      CollectTypes(fd.messages, Prefix(fd));
      CollectEnums(fd.enums, Prefix(fd));
    }

    /** Everything v imports publicly has been visited and its types collected. */
    ghost predicate Finished(all: Files, v: string)
      reads this
    {
      forall w :: PublicImport(all, v, w) ==> w in visited && CollectedFile(all, w)
    }

    ghost predicate CollectedFile(all: Files, w: string)
      reads this`types
    {
      w in all ==> FileTypes(all[w]).Keys <= types.Keys
    }

    /** n's entry is as before, or from a file reached from froms. */
    twostate predicate Accounted(all: Files, froms: seq<string>, n: string)
      requires n in types
      reads this`types
    {
      || (n in old(types) && types[n] == old(types)[n])
      || exists x :: x in all && Reached(all, froms, x) && n in FileTypes(all[x]) && types[n] == FileTypes(all[x])[n]
    }

    /** Depth-first along public imports; visited keeps it finite on cyclic graphs. */
    method CollectPublic(filename: string, all: Files, ghost froms: seq<string>)
      requires Reached(all, froms, filename)
      modifies this
      ensures old(visited) <= visited && filename in visited
      ensures forall v :: v in visited && v !in old(visited) ==> Reached(all, froms, v) && Finished(all, v)
      ensures old(types).Keys <= types.Keys
      ensures forall n :: n in types ==> Accounted(all, froms, n)
      decreases all.Keys - visited
    {
      hide PublicImport, Reached, FileTypes;
      if filename in visited {
        return;
      }
      visited := visited + {filename};
      if filename !in all {
        NoImports(all, filename);
        return;
      }
      var fd := all[filename];
      for i := 0 to |fd.publicDependency|
        invariant old(visited) + {filename} <= visited
        invariant forall v :: v in visited && v !in old(visited) && v != filename ==>
                    Reached(all, froms, v) && Finished(all, v)
        invariant old(types).Keys <= types.Keys
        invariant forall n :: n in types ==> Accounted(all, froms, n)
        invariant forall j :: 0 <= j < i && fd.publicDependency[j] < |fd.dependency| ==>
                    var w := fd.dependency[fd.publicDependency[j]];
                    w in visited && CollectedFile(all, w)
      {
        var pubIdx := fd.publicDependency[i];
        if pubIdx < |fd.dependency| {
          var pubDep := fd.dependency[pubIdx];
          OneImport(all, filename, i);
          ReachedStep(all, froms, filename, pubDep);
          if pubDep in all {
            CollectFile(all[pubDep]);
          }
          CollectPublic(pubDep, all, froms);
        }
      }
      AllImports(all, filename);
    }
  }

  lemma {:induction false} NoImports(all: Files, a: string)
    requires a !in all
    ensures forall b :: !PublicImport(all, a, b)
  {
  }

  lemma {:induction false} OneImport(all: Files, a: string, i: nat)
    requires a in all && i < |all[a].publicDependency| && all[a].publicDependency[i] < |all[a].dependency|
    ensures PublicImport(all, a, all[a].dependency[all[a].publicDependency[i]])
  {
  }

  lemma {:induction false} AllImports(all: Files, a: string)
    requires a in all
    ensures forall b :: PublicImport(all, a, b) ==>
              exists i :: 0 <= i < |all[a].publicDependency| && all[a].publicDependency[i] < |all[a].dependency|
                          && all[a].dependency[all[a].publicDependency[i]] == b
  {
  }

  lemma {:induction false} MessageStep(types: map<string, TypeKind>, m: Message, fullName: string)
    ensures types + TypesOfMessage(m, fullName)
         == types[fullName := MessageType] + EnumTypes(m.enums, fullName) + TypesOf(m.nested, fullName)
  {
    hide EnumTypes, TypesOf;
    var own := map[fullName := MessageType];
    AddAdd(types, own, EnumTypes(m.enums, fullName));
    AddAdd(types, own + EnumTypes(m.enums, fullName), TypesOf(m.nested, fullName));
    assert types + own == types[fullName := MessageType];
  }

  lemma {:induction false} EnumStep(types: map<string, TypeKind>, enums: seq<string>, prefix: string)
    requires enums != []
    ensures types + EnumTypes(enums, prefix)
         == types[prefix + "." + enums[0] := EnumType] + EnumTypes(enums[1..], prefix)
  {
  }

  lemma {:induction false} NoEnums(types: map<string, TypeKind>, prefix: string)
    ensures types + EnumTypes([], prefix) == types
  {
  }

  lemma {:induction false} AddAdd<K, V>(a: map<K, V>, b: map<K, V>, c: map<K, V>)
    ensures (a + b) + c == a + (b + c)
  {
  }

  // ---------------------------------------------------------------------------
  // The whole table of a file
  // ---------------------------------------------------------------------------

  ghost predicate Covered(all: Files, keys: set<string>, w: string) {
    w in all ==> FileTypes(all[w]).Keys <= keys
  }

  /** Nothing reached from the imports is missed, also when a path leads back through fd. */
  lemma {:induction false} PathCovered(fd: File, all: Files, visited: set<string>, keys: set<string>, p: seq<string>)
    requires fd.name in all ==> all[fd.name] == fd
    requires forall d <- fd.dependency :: d in visited && Covered(all, keys, d)
    requires forall v, w :: v in visited && v != fd.name && PublicImport(all, v, w) ==> w in visited && Covered(all, keys, w)
    requires PublicPath(all, p) && p[0] in fd.dependency
    ensures p[|p| - 1] in visited && Covered(all, keys, p[|p| - 1])
    decreases |p|
  {
    hide Covered;
    if |p| > 1 {
      var q := p[..|p| - 1];
      var v, w := p[|p| - 2], p[|p| - 1];
      assert PublicImport(all, v, w);
      assert PublicPath(all, q) by {
        forall i | 0 <= i < |q| - 1
          ensures PublicImport(all, q[i], q[i + 1])
        {
          assert PublicImport(all, p[i], p[i + 1]);
        }
      }
      PathCovered(fd, all, visited, keys, q);
      if v == fd.name {
        assert w in fd.dependency;
      }
    }
  }

  /** Everything declared in a file that fd sees is in the table. */
  lemma {:induction false} VisibleCovered(
    fd: File, all: Files, types: map<string, TypeKind>, visited: set<string>, n: string, k: TypeKind)
    requires fd.name in all ==> all[fd.name] == fd
    requires FileTypes(fd).Keys <= types.Keys
    requires forall d <- fd.dependency :: d in visited && Covered(all, types.Keys, d)
    requires forall v, w :: v in visited && v != fd.name && PublicImport(all, v, w) ==>
               w in visited && Covered(all, types.Keys, w)
    requires TypeVisible(fd, all, n, k)
    ensures n in types
  {
    hide FileTypes, FileDeclares, PublicImport;
    var x, seen :| Sees(fd, all, x, seen) && FileDeclares(seen, n, k);
    FileTypesListed(seen, n, k);
    if x == fd.name && seen == fd {
    } else {
      var p :| PublicPath(all, p) && p[0] in fd.dependency && p[|p| - 1] == x;
      PathCovered(fd, all, visited, types.Keys, p);
    }
  }

  /** An entry comes from a file that fd sees. */
  ghost predicate FromSeen(fd: File, all: Files, types: map<string, TypeKind>, n: string)
    requires n in types
  {
    exists x, seen :: Sees(fd, all, x, seen) && n in FileTypes(seen) && types[n] == FileTypes(seen)[n]
  }

  lemma {:induction false} FromSeenVisible(fd: File, all: Files, types: map<string, TypeKind>, n: string)
    requires n in types && FromSeen(fd, all, types, n)
    ensures TypeVisible(fd, all, n, types[n])
  {
    hide FileTypes, FileDeclares, Sees;
    var x, seen :| Sees(fd, all, x, seen) && n in FileTypes(seen) && types[n] == FileTypes(seen)[n];
    FileTypesListed(seen, n, types[n]);
  }

  lemma {:induction false} AddedSeen(
    fd: File, all: Files, types: map<string, TypeKind>, x: string, seen: File, n: string)
    requires Sees(fd, all, x, seen) && n in types + FileTypes(seen)
    requires n in types ==> FromSeen(fd, all, types, n)
    ensures FromSeen(fd, all, types + FileTypes(seen), n)
  {
    hide FileTypes, Sees;
    var now := types + FileTypes(seen);
    if n in FileTypes(seen) {
      assert now[n] == FileTypes(seen)[n];
    } else {
      var y, other :| Sees(fd, all, y, other) && n in FileTypes(other) && types[n] == FileTypes(other)[n];
      assert now[n] == FileTypes(other)[n];
    }
  }

  /** The table holds exactly the types visible to fd, each with the kind of a visible declaration. */
  method CollectVisible(fd: File, all: Files) returns (types: map<string, TypeKind>)
    requires fd.name in all ==> all[fd.name] == fd
    ensures forall n, k :: TypeVisible(fd, all, n, k) ==> n in types
    ensures forall n :: n in types ==> TypeVisible(fd, all, n, types[n])
  {
    hide FileTypes, PublicImport, Reached, TypeVisible, FromSeen;
    var table := new TypeTable();
    table.CollectFile(fd);
    OwnSeen(fd, all);
    for i := 0 to |fd.dependency|
      invariant fresh(table) && table.visited == {}
      invariant FileTypes(fd).Keys <= table.types.Keys
      invariant forall j :: 0 <= j < i ==> Covered(all, table.types.Keys, fd.dependency[j])
      invariant forall n :: n in table.types ==> FromSeen(fd, all, table.types, n)
    {
      var dep := fd.dependency[i];
      if dep in all {
        ReachedStart(all, fd.dependency, dep);
        forall n | n in table.types + FileTypes(all[dep])
          ensures FromSeen(fd, all, table.types + FileTypes(all[dep]), n)
        {
          AddedSeen(fd, all, table.types, dep, all[dep], n);
        }
        table.CollectFile(all[dep]);
      }
    }
    table.visited := {fd.name};
    CollectReached(fd, all, table);
    forall n, k | TypeVisible(fd, all, n, k)
      ensures n in table.types
    {
      VisibleCovered(fd, all, table.types, table.visited, n, k);
    }
    forall n | n in table.types
      ensures TypeVisible(fd, all, n, table.types[n])
    {
      FromSeenVisible(fd, all, table.types, n);
    }
    types := table.types;
  }

  lemma {:induction false} OwnSeen(fd: File, all: Files)
    ensures forall n :: n in map[] + FileTypes(fd) ==> FromSeen(fd, all, map[] + FileTypes(fd), n)
  {
    hide FileTypes;
    forall n | n in map[] + FileTypes(fd)
      ensures FromSeen(fd, all, map[] + FileTypes(fd), n)
    {
      AddedSeen(fd, all, map[], fd.name, fd, n);
    }
  }

  /** The second pass: from every import along public imports. */
  method CollectReached(fd: File, all: Files, table: TypeTable)
    requires table.visited == {fd.name}
    requires forall n :: n in table.types ==> FromSeen(fd, all, table.types, n)
    modifies table
    ensures old(table.types).Keys <= table.types.Keys
    ensures forall d <- fd.dependency :: d in table.visited
    ensures forall v, w :: v in table.visited && v != fd.name && PublicImport(all, v, w) ==>
              w in table.visited && Covered(all, table.types.Keys, w)
    ensures forall n :: n in table.types ==> FromSeen(fd, all, table.types, n)
  {
    hide FileTypes, PublicImport, Reached;
    for i := 0 to |fd.dependency|
      invariant fd.name in table.visited && old(table.types).Keys <= table.types.Keys
      invariant forall j :: 0 <= j < i ==> fd.dependency[j] in table.visited
      invariant forall v :: v in table.visited && v != fd.name ==> table.Finished(all, v)
      invariant forall n :: n in table.types ==> FromSeen(fd, all, table.types, n)
    {
      ghost var before := table.types;
      ReachedStart(all, fd.dependency, fd.dependency[i]);
      label Before:
      table.CollectPublic(fd.dependency[i], all, fd.dependency);
      forall n | n in table.types
        ensures FromSeen(fd, all, table.types, n)
      {
        assert table.Accounted@Before(all, fd.dependency, n);
        StillSeen(fd, all, before, table.types, n);
      }
    }
  }

  lemma {:induction false} StillSeen(
    fd: File, all: Files, before: map<string, TypeKind>, now: map<string, TypeKind>, n: string)
    requires n in now
    requires n in before ==> FromSeen(fd, all, before, n)
    requires
      || (n in before && now[n] == before[n])
      || exists x :: x in all && Reached(all, fd.dependency, x) && n in FileTypes(all[x]) && now[n] == FileTypes(all[x])[n]
    ensures FromSeen(fd, all, now, n)
  {
    hide FileTypes, Reached;
    if n in before && now[n] == before[n] {
      var x, seen :| Sees(fd, all, x, seen) && n in FileTypes(seen) && before[n] == FileTypes(seen)[n];
      assert now[n] == FileTypes(seen)[n];
    } else {
      var x :| x in all && Reached(all, fd.dependency, x) && n in FileTypes(all[x]) && now[n] == FileTypes(all[x])[n];
      assert Sees(fd, all, x, all[x]);
    }
  }
}
