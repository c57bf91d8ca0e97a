/** Whether a JSON schema declares a property, following composition keywords and local references. */
module SchemaSearch {
  import opened Common
  import opened Json
  import opened JsonPointer

  // ----- the schema graph -----

  predicate Declares(node: Value, property: string) {
    match Field(node, "properties")
    case Some(Object(members)) => Find(members, property).Some?
    case _ => false
  }

  /** The local reference of a node; other references are not followed. */
  function LocalReference(node: Value): Option<string> {
    match Field(node, "$ref")
    case Some(String(s)) => if s != "" && s[0] == '#' then Some(s) else None
    case _ => None
  }

  function Target(root: Value, reference: string): Option<Value>
    requires reference != ""
  {
    Pointer(root, reference[1..])
  }

  function Listed(node: Value, keyword: string): seq<Value> {
    match Field(node, keyword)
    case Some(Array(items)) => items
    case _ => []
  }

  function Composed(node: Value): seq<Value> {
    Listed(node, "allOf") + Listed(node, "anyOf") + Listed(node, "oneOf")
  }

  lemma ListedAreParts(node: Value, keyword: string, i: nat)
    requires i < |Listed(node, keyword)|
    ensures Size(Listed(node, keyword)[i]) < Size(node) && Strings(Listed(node, keyword)[i]) <= Strings(node)
  {
    FieldIsPart(node, keyword);
    ItemIsPart(Listed(node, keyword), i);
  }

  lemma ComposedAreParts(node: Value, i: nat)
    requires i < |Composed(node)|
    ensures Size(Composed(node)[i]) < Size(node) && Strings(Composed(node)[i]) <= Strings(node)
  {
    var all, any := |Listed(node, "allOf")|, |Listed(node, "anyOf")|;
    if i < all {
      ListedAreParts(node, "allOf", i);
    } else if i < all + any {
      ListedAreParts(node, "anyOf", i - all);
    } else {
      ListedAreParts(node, "oneOf", i - all - any);
    }
  }

  ghost predicate Edge(root: Value, a: Value, b: Value) {
    b in Composed(a) || (LocalReference(a).Some? && Target(root, LocalReference(a).value) == Some(b))
  }

  ghost predicate Path(root: Value, nodes: seq<Value>) {
    |nodes| > 0 && forall i :: 0 < i < |nodes| ==> Edge(root, nodes[i - 1], nodes[i])
  }

  ghost predicate LeadsToDeclaration(root: Value, nodes: seq<Value>, property: string) {
    Path(root, nodes) && Declares(nodes[|nodes| - 1], property)
  }

  /** A node that declares the property can be reached along the edges. */
  ghost predicate DeclaredFrom(root: Value, node: Value, property: string) {
    exists nodes :: LeadsToDeclaration(root, nodes, property) && nodes[0] == node
  }

  lemma PathPrepend(root: Value, a: Value, nodes: seq<Value>)
    requires Path(root, nodes) && Edge(root, a, nodes[0])
    ensures Path(root, [a] + nodes)
  {
    var longer := [a] + nodes;
    forall i | 0 < i < |longer| ensures Edge(root, longer[i - 1], longer[i]) {
      assert longer[i] == nodes[i - 1];
      if i > 1 {
        assert longer[i - 1] == nodes[i - 2];
      }
    }
  }

  lemma DeclaredThroughEdge(root: Value, a: Value, b: Value, property: string)
    requires Edge(root, a, b) && DeclaredFrom(root, b, property)
    ensures DeclaredFrom(root, a, property)
  {
    var nodes :| LeadsToDeclaration(root, nodes, property) && nodes[0] == b;
    PathPrepend(root, a, nodes);
    assert LeadsToDeclaration(root, [a] + nodes, property);
  }

  // ----- why a fruitless search is complete -----

  /** The node and everything composed into it declares nothing, and its references have all been visited. */
  ghost predicate Clear(node: Value, property: string, visited: set<string>)
    decreases Size(node)
  {
    && !Declares(node, property)
    && (LocalReference(node).Some? ==> LocalReference(node).value in visited)
    && forall i :: 0 <= i < |Composed(node)| ==>
       (ComposedAreParts(node, i); Clear(Composed(node)[i], property, visited))
  }

  ghost predicate TargetClear(root: Value, reference: string, property: string, visited: set<string>) {
    reference != "" && (Target(root, reference).Some? ==> Clear(Target(root, reference).value, property, visited))
  }

  lemma {:induction false} ClearGrows(node: Value, property: string, visited: set<string>, more: set<string>)
    requires Clear(node, property, visited) && visited <= more
    ensures Clear(node, property, more)
    decreases Size(node)
  {
    forall i | 0 <= i < |Composed(node)| ensures Clear(Composed(node)[i], property, more) {
      ComposedAreParts(node, i);
      ClearGrows(Composed(node)[i], property, visited, more);
    }
  }

  lemma TargetClearGrows(root: Value, reference: string, property: string, visited: set<string>, more: set<string>)
    requires TargetClear(root, reference, property, visited) && visited <= more
    ensures TargetClear(root, reference, property, more)
  {
    if Target(root, reference).Some? {
      ClearGrows(Target(root, reference).value, property, visited, more);
    }
  }

  /** When the targets of all visited references are clear, nothing reachable from a clear node declares the
      property. */
  lemma {:induction false} ClearPath(root: Value, nodes: seq<Value>, property: string, visited: set<string>)
    requires Path(root, nodes) && Clear(nodes[0], property, visited)
    requires forall r :: r in visited ==> TargetClear(root, r, property, visited)
    ensures Clear(nodes[|nodes| - 1], property, visited)
  {
    if |nodes| > 1 {
      assert Edge(root, nodes[0], nodes[1]);
      if nodes[1] in Composed(nodes[0]) {
        var i :| 0 <= i < |Composed(nodes[0])| && Composed(nodes[0])[i] == nodes[1];
      } else {
        assert TargetClear(root, LocalReference(nodes[0]).value, property, visited);
      }
      assert forall i :: 0 < i < |nodes[1..]| ==> nodes[1..][i - 1] == nodes[i] && nodes[1..][i] == nodes[i + 1];
      ClearPath(root, nodes[1..], property, visited);
    }
  }

  // ----- the search -----

  class VisitedReferences {
    var references: set<string>

    constructor ()
      ensures references == {}
    {
      references := {};
    }

    method Insert(reference: string) returns (inserted: bool)
      modifies this
      ensures references == old(references) + {reference}
      ensures inserted == (reference !in old(references))
    {
      inserted := reference !in references;
      references := references + {reference};
    }
  }

  /** The targets of all references visited since are clear. */
  ghost predicate NewlyClear(root: Value, property: string, before: set<string>, visited: set<string>) {
    before <= visited && forall r :: r in visited - before ==> TargetClear(root, r, property, visited)
  }

  lemma NewlyClearOn(root: Value, property: string, a: set<string>, b: set<string>, c: set<string>)
    requires NewlyClear(root, property, a, b) && NewlyClear(root, property, b, c)
    ensures NewlyClear(root, property, a, c)
  {
    forall r | r in c - a ensures TargetClear(root, r, property, c) {
      if r in b {
        TargetClearGrows(root, r, property, b, c);
      }
    }
  }

  ghost predicate AllClear(nodes: seq<Value>, property: string, visited: set<string>) {
    forall i :: 0 <= i < |nodes| ==> Clear(nodes[i], property, visited)
  }

  lemma OneMoreClear(nodes: seq<Value>, i: nat, property: string, before: set<string>, visited: set<string>)
    requires i < |nodes| && before <= visited
    requires AllClear(nodes[..i], property, before) && Clear(nodes[i], property, visited)
    ensures AllClear(nodes[..i + 1], property, visited)
  {
    forall j | 0 <= j < i ensures Clear(nodes[j], property, visited) {
      assert nodes[..i][j] == nodes[j];
      ClearGrows(nodes[j], property, before, visited);
    }
  }

  lemma NodeIsClear(node: Value, property: string, visited: set<string>)
    requires !Declares(node, property)
    requires LocalReference(node).Some? ==> LocalReference(node).value in visited
    requires AllClear(Composed(node), property, visited)
    ensures Clear(node, property, visited)
  {
    forall i | 0 <= i < |Composed(node)| ensures Clear(Composed(node)[i], property, visited) {
      ComposedAreParts(node, i);
    }
  }

  lemma ReferenceIsInside(root: Value, node: Value)
    requires Strings(node) <= Strings(root) && LocalReference(node).Some?
    ensures LocalReference(node).value in Strings(root)
    ensures var target := Target(root, LocalReference(node).value);
            target.Some? ==> Strings(target.value) <= Strings(root)
  {
    var reference := LocalReference(node).value;
    FieldIsPart(node, "$ref");
    if Target(root, reference).Some? && reference[1..] != "" {
      WalkStaysInside(root, Split(reference[1..][1..]));
    }
  }

  method SchemaNodeDeclaresProperty(root: Value, node: Value, property: string, visited: VisitedReferences)
      returns (found: bool)
    requires Strings(node) <= Strings(root)
    modifies visited
    ensures old(visited.references) <= visited.references
    ensures found ==> DeclaredFrom(root, node, property)
    ensures !found ==> Clear(node, property, visited.references)
    ensures !found ==> NewlyClear(root, property, old(visited.references), visited.references)
    decreases Strings(root) - visited.references, Size(node), 2
  {
    if Declares(node, property) {
      assert LeadsToDeclaration(root, [node], property);
      return true;
    }
    found := SearchReference(root, node, property, visited);
    if !found {
      ghost var before := visited.references;
      found := SearchComposed(root, node, property, visited);
      if !found {
        NewlyClearOn(root, property, old(visited.references), before, visited.references);
        NodeIsClear(node, property, visited.references);
      }
    }
  }

  /** The branch for `$ref`: a local reference is followed unless it has been visited before. */
  method SearchReference(root: Value, node: Value, property: string, visited: VisitedReferences) returns (found: bool)
    requires Strings(node) <= Strings(root)
    modifies visited
    ensures old(visited.references) <= visited.references
    ensures found ==> DeclaredFrom(root, node, property)
    ensures !found && LocalReference(node).Some? ==> LocalReference(node).value in visited.references
    ensures !found ==> NewlyClear(root, property, old(visited.references), visited.references)
    decreases Strings(root) - visited.references, Size(node), 1
  {
    var reference := LocalReference(node);
    if reference.None? {
      return false;
    }
    ReferenceIsInside(root, node);
    var inserted := visited.Insert(reference.value);
    if !inserted {
      return false;
    }
    var target := Target(root, reference.value);
    if target.None? {
      return false;
    }
    found := SchemaNodeDeclaresProperty(root, target.value, property, visited);
    if found {
      DeclaredThroughEdge(root, node, target.value, property);
    }
  }

  /** The loop over the nodes listed under the composition keywords. */
  method SearchComposed(root: Value, node: Value, property: string, visited: VisitedReferences) returns (found: bool)
    requires Strings(node) <= Strings(root)
    modifies visited
    ensures old(visited.references) <= visited.references
    ensures found ==> DeclaredFrom(root, node, property)
    ensures !found ==> AllClear(Composed(node), property, visited.references)
    ensures !found ==> NewlyClear(root, property, old(visited.references), visited.references)
    decreases Strings(root) - visited.references, Size(node), 0
  {
    var children := Composed(node);
    for i := 0 to |children|
      invariant AllClear(children[..i], property, visited.references)
      invariant NewlyClear(root, property, old(visited.references), visited.references)
    {
      ghost var before := visited.references;
      ComposedAreParts(node, i);
      found := SchemaNodeDeclaresProperty(root, children[i], property, visited);
      if found {
        DeclaredThroughEdge(root, node, children[i], property);
        return;
      }
      OneMoreClear(children, i, property, before, visited.references);
      NewlyClearOn(root, property, old(visited.references), before, visited.references);
    }
    assert children[..|children|] == children;
    found := false;
  }

  /** The search decides reachability, on cyclic schemas too. */
  method SchemaDeclaresProperty(schema: Option<Value>, property: string) returns (found: bool)
    ensures found <==> schema.Some? && DeclaredFrom(schema.value, schema.value, property)
  {
    if schema.None? {
      return false;
    }
    var root := schema.value;
    var visited := new VisitedReferences();
    found := SchemaNodeDeclaresProperty(root, root, property, visited);
    if !found && DeclaredFrom(root, root, property) {
      var nodes :| LeadsToDeclaration(root, nodes, property) && nodes[0] == root;
      ClearPath(root, nodes, property, visited.references);
    }
  }

  // ----- percent-encoded references -----

  /** A schema whose only property is declared under this key of its definitions, and which refers to it like that. */
  function Referring(key: string, property: string, reference: string): Value {
    var declaring := Object([Member("properties", Object([Member(property, Null)]))]);
    Object([Member("$defs", Object([Member(key, declaring)])), Member("$ref", String(reference))])
  }

  lemma ReferringFields(key: string, property: string, reference: string)
    ensures var root := Referring(key, property, reference);
            && Composed(root) == [] && !Declares(root, property) && Field(root, "$ref") == Some(String(reference))
            && Follow(root, ["$defs", key]).Some? && Declares(Follow(root, ["$defs", key]).value, property)
  {
    var root := Referring(key, property, reference);
    var rest := [Member("$ref", String(reference))];
    assert root.members[1..] == rest && rest[1..] == [];
    var definitions := Object([Member(key, Object([Member("properties", Object([Member(property, Null)]))]))]);
    assert Find(rest, "properties") == Find(rest, "allOf") == Find(rest, "anyOf") == Find(rest, "oneOf") == None;
    assert Find(rest, "$ref") == Some(String(reference));
    assert Resolve(root, "$defs") == Some(definitions);
    OnlyMember(key, definitions.members[0].value, key);
    assert ["$defs", key][1..] == [key] && [key][1..] == [];
    assert Follow(definitions, [key]) == Some(definitions.members[0].value);
  }

  lemma OtherKeyIsMissing(key: string, property: string, reference: string, other: string)
    requires other != key
    ensures Follow(Referring(key, property, reference), ["$defs", other]) == None
  {
    var root := Referring(key, property, reference);
    var definitions := Object([Member(key, Object([Member("properties", Object([Member(property, Null)]))]))]);
    assert Resolve(root, "$defs") == Some(definitions);
    OnlyMember(key, definitions.members[0].value, other);
    assert ["$defs", other][1..] == [other];
  }

  lemma NoEdge(root: Value, b: Value)
    requires Composed(root) == [] && LocalReference(root).Some? && Target(root, LocalReference(root).value) == None
    ensures !Edge(root, root, b)
  {
  }

  lemma ReferringDeclares(key: string, property: string, reference: string)
    requires reference != "" && reference[0] == '#'
    ensures var root := Referring(key, property, reference);
            Target(root, reference) == Follow(root, ["$defs", key]) ==> DeclaredFrom(root, root, property)
    ensures var root := Referring(key, property, reference);
            Target(root, reference) == None ==> !DeclaredFrom(root, root, property)
  {
    var root := Referring(key, property, reference);
    ReferringFields(key, property, reference);
    if Target(root, reference) == Follow(root, ["$defs", key]) {
      var target := Follow(root, ["$defs", key]).value;
      assert LeadsToDeclaration(root, [target], property);
      assert Edge(root, root, target);
      DeclaredThroughEdge(root, root, target, property);
    }
    if Target(root, reference) == None && DeclaredFrom(root, root, property) {
      var nodes :| LeadsToDeclaration(root, nodes, property) && nodes[0] == root;
      if |nodes| > 1 {
        NoEdge(root, nodes[1]);
      }
    }
  }

  /** The search sees the property behind an encoded reference exactly when the key of its definition has nothing to
      encode; behind the reference as it is, always. */
  method SearchBehindReference(key: string, property: string, encode: char -> string)
      returns (plain: bool, encoded: bool)
    requires PlainCodes(encode) && LongCodes(encode)
    ensures plain && (encoded <==> forall c :: c in key ==> Unencoded(c))
  {
    var path := ["$defs", key];
    var reference, encodedReference := "#" + PointerTo(path), "#" + PercentEncode(PointerTo(path), encode);
    plain := SchemaDeclaresProperty(Some(Referring(key, property, reference)), property);
    encoded := SchemaDeclaresProperty(Some(Referring(key, property, encodedReference)), property);
    PlainReferenceReaches(key, property, reference);
    EncodedReferenceReaches(key, property, encodedReference, encode);
  }

  lemma PlainReferenceReaches(key: string, property: string, reference: string)
    requires reference == "#" + PointerTo(["$defs", key])
    ensures DeclaredFrom(Referring(key, property, reference), Referring(key, property, reference), property)
  {
    assert reference[1..] == PointerTo(["$defs", key]);
    PointerFindsPath(Referring(key, property, reference), ["$defs", key]);
    ReferringDeclares(key, property, reference);
  }

  lemma EncodedReferenceReaches(key: string, property: string, reference: string, encode: char -> string)
    requires PlainCodes(encode) && LongCodes(encode)
    requires reference == "#" + PercentEncode(PointerTo(["$defs", key]), encode)
    ensures DeclaredFrom(Referring(key, property, reference), Referring(key, property, reference), property)
            <==> forall c :: c in key ==> Unencoded(c)
  {
    var root := Referring(key, property, reference);
    assert reference[1..] == PercentEncode(PointerTo(["$defs", key]), encode);
    EncodedPointerFindsEncodedKeys(root, ["$defs", key], encode);
    EncodedPath(key, encode);
    EncodingLengthens(key, encode);
    ReferringDeclares(key, property, reference);
    if PercentEncode(key, encode) != key {
      OtherKeyIsMissing(key, property, reference, PercentEncode(key, encode));
    }
  }

  lemma DefinitionsNeedNoCode(encode: char -> string)
    requires LongCodes(encode)
    ensures PercentEncode("$defs", encode) == "$defs"
  {
    EncodingLengthens("$defs", encode);
    assert forall c :: c in "$defs" ==> Unencoded(c);
  }

  lemma EncodedPath(key: string, encode: char -> string)
    requires LongCodes(encode)
    ensures EncodedKeys(["$defs", key], encode) == ["$defs", PercentEncode(key, encode)]
  {
    DefinitionsNeedNoCode(encode);
    assert ["$defs", key][1..] == [key] && [key][1..] == [];
    assert EncodedKeys([key], encode) == [PercentEncode(key, encode)];
  }

  // ----- what the keywords mean -----

  /** The array under this keyword has the node. */
  predicate ListedUnder(a: Value, keyword: string, b: Value) {
    Field(a, keyword).Some? && Field(a, keyword).value.Array? && b in Field(a, keyword).value.items
  }

  /** The reference of the node is local and finds the other node from the root. */
  predicate RefersTo(root: Value, a: Value, b: Value) {
    && Field(a, "$ref").Some? && Field(a, "$ref").value.String?
    && var reference := Field(a, "$ref").value.chars;
       reference != "" && reference[0] == '#' && Pointer(root, reference[1..]) == Some(b)
  }

  /** The nodes that a node leads to are those in its "allOf", "anyOf" and "oneOf", and the one its local reference
      finds. */
  lemma EdgeExactlyWhen(root: Value, a: Value, b: Value)
    ensures Edge(root, a, b) <==>
              || ListedUnder(a, "allOf", b) || ListedUnder(a, "anyOf", b) || ListedUnder(a, "oneOf", b)
              || RefersTo(root, a, b)
  {
    assert b in Composed(a) <==>
             b in Listed(a, "allOf") || b in Listed(a, "anyOf") || b in Listed(a, "oneOf");
  }

  /** A node declares a property exactly when the object under its "properties" has the key. */
  lemma DeclaresExactlyWhen(node: Value, property: string)
    ensures Declares(node, property) <==>
              && Field(node, "properties").Some? && Field(node, "properties").value.Object?
              && exists member :: member in Field(node, "properties").value.members && member.key == property
  {
    if Field(node, "properties").Some? && Field(node, "properties").value.Object? {
      KeyIsFound(Field(node, "properties").value.members, property);
    }
  }

  lemma {:induction false} KeyIsFound(members: seq<Member>, key: string)
    ensures Find(members, key).Some? <==> exists member :: member in members && member.key == key
  {
    if members != [] {
      KeyIsFound(members[1..], key);
      assert members == [members[0]] + members[1..];
    }
  }

  /** A property that a node in one of the three arrays declares, at any depth, is declared. */
  lemma DeclaredInKeyword(root: Value, node: Value, keyword: string, i: nat, property: string)
    requires keyword == "allOf" || keyword == "anyOf" || keyword == "oneOf"
    requires Field(node, keyword).Some? && Field(node, keyword).value.Array? && i < |Field(node, keyword).value.items|
    requires DeclaredFrom(root, Field(node, keyword).value.items[i], property)
    ensures DeclaredFrom(root, node, property)
  {
    var b := Field(node, keyword).value.items[i];
    EdgeExactlyWhen(root, node, b);
    DeclaredThroughEdge(root, node, b, property);
  }

  /** The answer follows from the answers for the nodes it leads to, and from nothing else. */
  lemma DeclaredFromExactlyWhen(root: Value, node: Value, property: string)
    ensures DeclaredFrom(root, node, property) <==>
              Declares(node, property) || exists b :: Edge(root, node, b) && DeclaredFrom(root, b, property)
  {
    if Declares(node, property) {
      assert LeadsToDeclaration(root, [node], property);
    }
    if b :| Edge(root, node, b) && DeclaredFrom(root, b, property) {
      DeclaredThroughEdge(root, node, b, property);
    }
    if DeclaredFrom(root, node, property) && !Declares(node, property) {
      var nodes :| LeadsToDeclaration(root, nodes, property) && nodes[0] == node;
      RestLeads(root, nodes, property);
      assert Edge(root, node, nodes[1]) && DeclaredFrom(root, nodes[1], property);
    }
  }

  lemma RestLeads(root: Value, nodes: seq<Value>, property: string)
    requires LeadsToDeclaration(root, nodes, property) && |nodes| > 1
    ensures Edge(root, nodes[0], nodes[1]) && DeclaredFrom(root, nodes[1], property)
  {
    var rest := nodes[1..];
    forall i | 0 < i < |rest| ensures Edge(root, rest[i - 1], rest[i]) {
      assert Edge(root, nodes[i], nodes[i + 1]);
    }
    assert LeadsToDeclaration(root, rest, property) && rest[0] == nodes[1];
  }

  /** A schema that declares the property in the first entry of its "oneOf" only. */
  lemma OneOfIsSearched(property: string)
    ensures var root := Object([Member("oneOf", Array([Object([Member("properties",
                                                                      Object([Member(property, Null)]))])]))]);
            DeclaredFrom(root, root, property)
  {
    var declared := Object([Member(property, Null)]);
    var first := Object([Member("properties", declared)]);
    var root := Object([Member("oneOf", Array([first]))]);
    assert Member(property, Null) in declared.members;
    DeclaresExactlyWhen(first, property);
    DeclaredFromExactlyWhen(root, first, property);
    assert Field(root, "oneOf").value.items[0] == first;
    DeclaredInKeyword(root, root, "oneOf", 0, property);
  }
}
