/**
 Nested task specs and the node references inside them: `remap` and `_remap_placeholder`
 of RuntimeGraph.with_node_prefix, and RuntimeGraphBuilder._iter_spec_refs.
 A spec is a JSON value. Mappings keep insertion order, so they are field lists;
 a lookup reads the first field with the key.
 */
module SpecRefs {
  import opened Sequences

  type Id = string

  datatype Json =
    | Obj(fields: Fields)
    | Arr(items: Items)
    | Tup(items: Items)
    | Str(text: string)
    | Atom(code: int) // numbers, booleans and null

  datatype Fields = NoField | Field(key: string, value: Json, rest: Fields)

  datatype Items = NoItem | Item(value: Json, rest: Items)

  function Get(fields: Fields, key: string): Option<Json> {
    match fields
    case NoField => None
    case Field(k, v, rest) => if k == key then Some(v) else Get(rest, key)
  }

  function Elements(items: Items): (s: seq<Json>) {
    match items
    case NoItem => []
    case Item(v, rest) => [v] + Elements(rest)
  }

  lemma {:induction false} GetSmaller(fields: Fields, key: string)
    requires Get(fields, key).Some?
    ensures Get(fields, key).value < fields
  {
    if fields.key != key {
      GetSmaller(fields.rest, key);
    }
  }

  // ----- placeholders --------------------------------------------------------------

  /** The length of the longest prefix of `t` that holds no character of `stop`. */
  function Run(t: string, stop: set<char>): (n: nat)
    ensures n <= |t|
    ensures forall i :: 0 <= i < n ==> t[i] !in stop
    ensures n < |t| ==> t[n] in stop
  {
    if t == "" || t[0] in stop then 0 else 1 + Run(t[1..], stop)
  }

  datatype Placeholder = Placeholder(node: string, path: string)

  function Written(p: Placeholder): string {
    "${" + p.node + "." + p.path + "}"
  }

  predicate WellNamed(n: Id) {
    n != "" && '.' !in n && '}' !in n
  }

  predicate WellFormed(p: Placeholder) {
    WellNamed(p.node) && p.path != "" && '}' !in p.path
  }

  /** The placeholder pattern at the start of `t`: `${`, a node without `.` or `}`, `.`, a path, `}`. */
  function MatchHere(t: string): (m: Option<Placeholder>)
    ensures m.Some? ==> WellFormed(m.value) && Written(m.value) <= t
  {
    if |t| < 2 || t[0] != '$' || t[1] != '{' then None
    else
      var body := t[2..];
      var n := Run(body, {'.', '}'});
      if n == 0 || n == |body| || body[n] != '.' then None
      else
        var tail := body[n + 1..];
        var k := Run(tail, {'}'});
        if k == 0 || k == |tail| then None
        else
          assert t[..2] == "${";
          assert t == "${" + body[..n] + "." + tail[..k] + "}" + tail[k + 1..];
          Some(Placeholder(body[..n], tail[..k]))
  }

  /** `_remap_placeholder`: the regular-expression substitution, left to right. */
  function Substitute(t: string, rewritable: map<Id, Id>): string
    decreases |t|
  {
    if t == "" then ""
    else match MatchHere(t)
      case None => t[..1] + Substitute(t[1..], rewritable)
      case Some(p) =>
        (if p.node in rewritable then Written(p.(node := rewritable[p.node])) else Written(p))
          + Substitute(t[|Written(p)|..], rewritable)
  }

  /** A well-formed placeholder is found as written, whatever follows it. */
  lemma MatchWritten(p: Placeholder, tail: string)
    requires WellFormed(p)
    ensures MatchHere(Written(p) + tail) == Some(p)
  {
    var t := Written(p) + tail;
    var rest := p.path + ['}'] + tail;
    var body := p.node + ['.'] + rest;
    assert t[2..] == body;
    RunIs(p.node, '.', rest, {'.', '}'});
    assert body[|p.node| + 1..] == rest;
    RunIs(p.path, '}', tail, {'}'});
    assert body[..|p.node|] == p.node;
    assert rest[..|p.path|] == p.path;
  }

  lemma RunIs(s: string, c: char, tail: string, stop: set<char>)
    requires c in stop && forall x :: x in stop ==> x !in s
    ensures Run(s + [c] + tail, stop) == |s|
  {
    var t := s + [c] + tail;
    assert t[|s|] == c;
    assert forall i :: 0 <= i < |s| ==> t[i] == s[i];
  }

  /** A placeholder names its node once more under the new name, and the text after it is treated alike. */
  lemma SubstituteWritten(p: Placeholder, tail: string, rewritable: map<Id, Id>)
    requires WellFormed(p)
    ensures Substitute(Written(p) + tail, rewritable)
         == Written(if p.node in rewritable then p.(node := rewritable[p.node]) else p) + Substitute(tail, rewritable)
  {
    MatchWritten(p, tail);
    assert (Written(p) + tail)[|Written(p)|..] == tail;
  }

  /** Where no placeholder starts, the character stays. */
  lemma SubstituteOther(t: string, rewritable: map<Id, Id>)
    requires t != "" && forall p :: WellFormed(p) ==> !(Written(p) <= t)
    ensures Substitute(t, rewritable) == [t[0]] + Substitute(t[1..], rewritable)
  {
    assert MatchHere(t) == None;
    assert t[..1] == [t[0]];
  }

  lemma {:induction false} SubstitutePlain(t: string, rewritable: map<Id, Id>)
    requires '$' !in t
    ensures Substitute(t, rewritable) == t
  {
    if t != "" {
      assert t[0] != '$';
      SubstitutePlain(t[1..], rewritable);
      assert t == t[..1] + t[1..];
    }
  }

  lemma {:induction false} SubstituteKeepsDollar(t: string, rewritable: map<Id, Id>)
    requires '$' in t
    ensures '$' in Substitute(t, rewritable)
  {
    if t[0] != '$' {
      assert '$' in t[1..];
      SubstituteKeepsDollar(t[1..], rewritable);
    } else {
      assert Substitute(t, rewritable)[0] == '$';
    }
  }

  /** Substitution neither destroys nor creates a `$`-free text: keywords stay recognisable. */
  lemma SubstituteKeyword(t: string, word: string, rewritable: map<Id, Id>)
    requires '$' !in word
    ensures Substitute(t, rewritable) == word <==> t == word
  {
    if '$' in t {
      SubstituteKeepsDollar(t, rewritable);
    } else {
      SubstitutePlain(t, rewritable);
    }
  }

  // ----- remap and the reference walk --------------------------------------------------

  function Remap(v: Json, mapping: map<Id, Id>, rewritable: map<Id, Id>): Json
    decreases v, 0
  {
    match v
    case Obj(fields) => Obj(RemapFields(fields, mapping, rewritable))
    case Arr(items) => Arr(RemapItems(items, mapping, rewritable))
    case Tup(items) => Tup(RemapItems(items, mapping, rewritable))
    case Str(text) => Str(Substitute(text, rewritable))
    case Atom(_) => v
  }

  function RemapField(key: string, v: Json, mapping: map<Id, Id>, rewritable: map<Id, Id>): Json
    decreases v, 1
  {
    if key == "node" && v.Str? && v.text in mapping then Str(mapping[v.text])
    else Remap(v, mapping, rewritable)
  }

  function RemapFields(fields: Fields, mapping: map<Id, Id>, rewritable: map<Id, Id>): Fields
    decreases fields, 0
  {
    match fields
    case NoField => NoField
    case Field(k, v, rest) =>
      Field(k, RemapField(k, v, mapping, rewritable), RemapFields(rest, mapping, rewritable))
  }

  function RemapItems(items: Items, mapping: map<Id, Id>, rewritable: map<Id, Id>): Items
    decreases items, 0
  {
    match items
    case NoItem => NoItem
    case Item(v, rest) => Item(Remap(v, mapping, rewritable), RemapItems(rest, mapping, rewritable))
  }

  predicate IsStr(v: Option<Json>, text: string) {
    v == Some(Str(text))
  }

  predicate HasText(v: Option<Json>) {
    v.Some? && v.value.Str?
  }

  /** `_iter_spec_refs`: the yielded node references, in order. */
  function Refs(v: Json, allowExpr: bool): seq<Id>
    decreases v
  {
    match v
    case Obj(fields) =>
      var node := Get(fields, "node");
      if HasText(node) && (Get(fields, "path").Some? || (allowExpr && Get(fields, "expr").Some?)) then
        [node.value.text]
      else if IsStr(Get(fields, "type"), "list") then
        var items := Get(fields, "items");
        if items.None? then []
        else
          GetSmaller(fields, "items");
          Refs(items.value, false)
      else if IsStr(Get(fields, "kind"), "stage") && HasText(node) then
        [node.value.text]
      else RefsOfFields(fields, allowExpr)
    case Arr(items) => RefsOfItems(items, allowExpr)
    case _ => []
  }

  function RefsOfFields(fields: Fields, allowExpr: bool): seq<Id>
    decreases fields
  {
    match fields
    case NoField => []
    case Field(_, v, rest) => Refs(v, allowExpr) + RefsOfFields(rest, allowExpr)
  }

  function RefsOfItems(items: Items, allowExpr: bool): seq<Id>
    decreases items
  {
    match items
    case NoItem => []
    case Item(v, rest) => Refs(v, allowExpr) + RefsOfItems(rest, allowExpr)
  }

  /** What happens to the text of a `node` field. */
  function Renamed(ref: Id, mapping: map<Id, Id>, rewritable: map<Id, Id>): Id {
    if ref in mapping then mapping[ref] else Substitute(ref, rewritable)
  }

  function RenamedAll(refs: seq<Id>, mapping: map<Id, Id>, rewritable: map<Id, Id>): (r: seq<Id>)
    ensures |r| == |refs|
    ensures forall i :: 0 <= i < |r| ==> r[i] == Renamed(refs[i], mapping, rewritable)
  {
    seq(|refs|, i requires 0 <= i < |refs| => Renamed(refs[i], mapping, rewritable))
  }

  lemma RenamedConcat(a: seq<Id>, b: seq<Id>, mapping: map<Id, Id>, rewritable: map<Id, Id>)
    ensures RenamedAll(a + b, mapping, rewritable)
         == RenamedAll(a, mapping, rewritable) + RenamedAll(b, mapping, rewritable)
  {
  }

  lemma {:induction false} GetRemapped(fields: Fields, key: string, mapping: map<Id, Id>, rewritable: map<Id, Id>)
    ensures Get(RemapFields(fields, mapping, rewritable), key)
         == match Get(fields, key)
            case None => None
            case Some(v) => Some(RemapField(key, v, mapping, rewritable))
  {
    if fields.Field? && fields.key != key {
      GetRemapped(fields.rest, key, mapping, rewritable);
    }
  }

  lemma KeywordRemapped(fields: Fields, key: string, word: string, mapping: map<Id, Id>, rewritable: map<Id, Id>)
    requires key != "node" && '$' !in word
    ensures IsStr(Get(RemapFields(fields, mapping, rewritable), key), word) <==> IsStr(Get(fields, key), word)
  {
    GetRemapped(fields, key, mapping, rewritable);
    var v := Get(fields, key);
    if HasText(v) {
      SubstituteKeyword(v.value.text, word, rewritable);
    }
  }

  // ----- every text of a spec, and everything else ------------------------------------------------

  /** A text of a spec: the value of a `node` key, or any other text. */
  datatype Leaf = Leaf(isNode: bool, text: string)

  /** The texts of a spec, in order. */
  function Leaves(v: Json, underNode: bool): seq<Leaf>
    decreases v, 1
  {
    match v
    case Obj(fields) => LeavesOfFields(fields)
    case Arr(items) => LeavesOfItems(items)
    case Tup(items) => LeavesOfItems(items)
    case Str(text) => [Leaf(underNode, text)]
    case Atom(_) => []
  }

  function LeavesOfFields(fields: Fields): seq<Leaf>
    decreases fields, 0
  {
    match fields
    case NoField => []
    case Field(k, v, rest) => Leaves(v, k == "node") + LeavesOfFields(rest)
  }

  function LeavesOfItems(items: Items): seq<Leaf>
    decreases items, 0
  {
    match items
    case NoItem => []
    case Item(v, rest) => Leaves(v, false) + LeavesOfItems(rest)
  }

  /** What is left of a spec without its texts: keys, nesting, lists, tuples, and the other values. */
  function Skeleton(v: Json): Json
    decreases v, 1
  {
    match v
    case Obj(fields) => Obj(SkeletonOfFields(fields))
    case Arr(items) => Arr(SkeletonOfItems(items))
    case Tup(items) => Tup(SkeletonOfItems(items))
    case Str(_) => Str("")
    case Atom(code) => Atom(code)
  }

  function SkeletonOfFields(fields: Fields): Fields
    decreases fields, 0
  {
    match fields
    case NoField => NoField
    case Field(k, v, rest) => Field(k, Skeleton(v), SkeletonOfFields(rest))
  }

  function SkeletonOfItems(items: Items): Items
    decreases items, 0
  {
    match items
    case NoItem => NoItem
    case Item(v, rest) => Item(Skeleton(v), SkeletonOfItems(rest))
  }

  /** A `node` text that is a node moves to its new id; in any other text the placeholders are rewritten. */
  ghost predicate LeafRenamed(before: Leaf, after: Leaf, mapping: map<Id, Id>, rewritable: map<Id, Id>) {
    && after.isNode == before.isNode
    && after.text == if before.isNode && before.text in mapping then mapping[before.text] else Substitute(before.text, rewritable)
  }

  ghost predicate LeavesRenamed(before: seq<Leaf>, after: seq<Leaf>, mapping: map<Id, Id>, rewritable: map<Id, Id>) {
    |after| == |before| && forall i :: 0 <= i < |before| ==> LeafRenamed(before[i], after[i], mapping, rewritable)
  }

  lemma RenamedSideBySide(
    a: seq<Leaf>, a': seq<Leaf>, b: seq<Leaf>, b': seq<Leaf>, mapping: map<Id, Id>, rewritable: map<Id, Id>)
    requires LeavesRenamed(a, a', mapping, rewritable) && LeavesRenamed(b, b', mapping, rewritable)
    ensures LeavesRenamed(a + b, a' + b', mapping, rewritable)
  {
    forall i | 0 <= i < |a + b| ensures LeafRenamed((a + b)[i], (a' + b')[i], mapping, rewritable) {
      if i >= |a| {
        var j := i - |a|;
        assert (a + b)[i] == b[j] && (a' + b')[i] == b'[j];
      }
    }
  }

  /** Remapping renames every text of a spec and changes nothing else. */
  lemma {:induction false} RemapRenamesTexts(v: Json, mapping: map<Id, Id>, rewritable: map<Id, Id>)
    ensures LeavesRenamed(Leaves(v, false), Leaves(Remap(v, mapping, rewritable), false), mapping, rewritable)
    ensures Skeleton(Remap(v, mapping, rewritable)) == Skeleton(v)
    decreases v, 1
  {
    match v
    case Obj(fields) => FieldTextsRenamed(fields, mapping, rewritable);
    case Arr(items) => ItemTextsRenamed(items, mapping, rewritable);
    case Tup(items) => ItemTextsRenamed(items, mapping, rewritable);
    case _ =>
  }

  lemma {:induction false} FieldTextsRenamed(fields: Fields, mapping: map<Id, Id>, rewritable: map<Id, Id>)
    ensures LeavesRenamed(LeavesOfFields(fields), LeavesOfFields(RemapFields(fields, mapping, rewritable)), mapping, rewritable)
    ensures SkeletonOfFields(RemapFields(fields, mapping, rewritable)) == SkeletonOfFields(fields)
    decreases fields, 0
  {
    match fields
    case NoField =>
    case Field(k, v, rest) =>
      FieldTextRenamed(k, v, mapping, rewritable);
      FieldTextsRenamed(rest, mapping, rewritable);
      RenamedSideBySide(
        Leaves(v, k == "node"), Leaves(RemapField(k, v, mapping, rewritable), k == "node"),
        LeavesOfFields(rest), LeavesOfFields(RemapFields(rest, mapping, rewritable)), mapping, rewritable);
  }

  lemma FieldTextRenamed(key: string, v: Json, mapping: map<Id, Id>, rewritable: map<Id, Id>)
    ensures
      LeavesRenamed(
        Leaves(v, key == "node"), Leaves(RemapField(key, v, mapping, rewritable), key == "node"), mapping, rewritable)
    ensures Skeleton(RemapField(key, v, mapping, rewritable)) == Skeleton(v)
    decreases v, 2
  {
    if !v.Str? {
      RemapRenamesTexts(v, mapping, rewritable);
    }
  }

  lemma {:induction false} ItemTextsRenamed(items: Items, mapping: map<Id, Id>, rewritable: map<Id, Id>)
    ensures LeavesRenamed(LeavesOfItems(items), LeavesOfItems(RemapItems(items, mapping, rewritable)), mapping, rewritable)
    ensures SkeletonOfItems(RemapItems(items, mapping, rewritable)) == SkeletonOfItems(items)
    decreases items, 0
  {
    match items
    case NoItem =>
    case Item(v, rest) =>
      RemapRenamesTexts(v, mapping, rewritable);
      ItemTextsRenamed(rest, mapping, rewritable);
      RenamedSideBySide(
        Leaves(v, false), Leaves(Remap(v, mapping, rewritable), false),
        LeavesOfItems(rest), LeavesOfItems(RemapItems(rest, mapping, rewritable)), mapping, rewritable);
  }

  /** The references of a remapped spec are the renamed references of the spec, in order. */
  lemma {:induction false} RefsOfRemap(v: Json, allowExpr: bool, mapping: map<Id, Id>, rewritable: map<Id, Id>)
    ensures Refs(Remap(v, mapping, rewritable), allowExpr) == RenamedAll(Refs(v, allowExpr), mapping, rewritable)
    decreases v
  {
    match v
    case Obj(fields) =>
      GetRemapped(fields, "node", mapping, rewritable);
      GetRemapped(fields, "path", mapping, rewritable);
      GetRemapped(fields, "expr", mapping, rewritable);
      GetRemapped(fields, "items", mapping, rewritable);
      KeywordRemapped(fields, "type", "list", mapping, rewritable);
      KeywordRemapped(fields, "kind", "stage", mapping, rewritable);
      if Get(fields, "items").Some? {
        GetSmaller(fields, "items");
        RefsOfRemap(Get(fields, "items").value, false, mapping, rewritable);
      }
      FieldRefsOfRemap(fields, allowExpr, mapping, rewritable);
    case Arr(items) =>
      ItemRefsOfRemap(items, allowExpr, mapping, rewritable);
    case _ =>
  }

  lemma {:induction false} FieldRefsOfRemap(fields: Fields, allowExpr: bool, mapping: map<Id, Id>, rewritable: map<Id, Id>)
    ensures RefsOfFields(RemapFields(fields, mapping, rewritable), allowExpr)
         == RenamedAll(RefsOfFields(fields, allowExpr), mapping, rewritable)
    decreases fields
  {
    match fields
    case NoField =>
    case Field(k, v, rest) =>
      RefsOfRemap(v, allowExpr, mapping, rewritable);
      FieldRefsOfRemap(rest, allowExpr, mapping, rewritable);
      RenamedConcat(Refs(v, allowExpr), RefsOfFields(rest, allowExpr), mapping, rewritable);
  }

  lemma {:induction false} ItemRefsOfRemap(items: Items, allowExpr: bool, mapping: map<Id, Id>, rewritable: map<Id, Id>)
    ensures RefsOfItems(RemapItems(items, mapping, rewritable), allowExpr)
         == RenamedAll(RefsOfItems(items, allowExpr), mapping, rewritable)
    decreases items
  {
    match items
    case NoItem =>
    case Item(v, rest) =>
      RefsOfRemap(v, allowExpr, mapping, rewritable);
      ItemRefsOfRemap(rest, allowExpr, mapping, rewritable);
      RenamedConcat(Refs(v, allowExpr), RefsOfItems(rest, allowExpr), mapping, rewritable);
  }

  /** The renaming that is meant: nodes move to their prefixed ids, phantom ids stay. */
  function Intended(refs: seq<Id>, mapping: map<Id, Id>): (r: seq<Id>)
    ensures |r| == |refs|
    ensures forall i :: 0 <= i < |r| ==> r[i] == if refs[i] in mapping then mapping[refs[i]] else refs[i]
  {
    seq(|refs|, i requires 0 <= i < |refs| => if refs[i] in mapping then mapping[refs[i]] else refs[i])
  }

  /** Remapping renames references as intended exactly when substitution leaves every phantom reference alone. */
  lemma RemapRenamesUnchanged(v: Json, allowExpr: bool, mapping: map<Id, Id>, rewritable: map<Id, Id>)
    ensures Refs(Remap(v, mapping, rewritable), allowExpr) == Intended(Refs(v, allowExpr), mapping)
       <==> forall ref :: ref in Refs(v, allowExpr) && ref !in mapping ==> Substitute(ref, rewritable) == ref
  {
    var refs := Refs(v, allowExpr);
    RefsOfRemap(v, allowExpr, mapping, rewritable);
    var got, want := RenamedAll(refs, mapping, rewritable), Intended(refs, mapping);
    if got == want {
      forall ref | ref in refs && ref !in mapping ensures Substitute(ref, rewritable) == ref {
        var i :| 0 <= i < |refs| && refs[i] == ref;
        assert got[i] == want[i];
      }
    } else {
      var i :| 0 <= i < |refs| && got[i] != want[i];
      assert refs[i] in refs;
    }
  }

  // ----- references that are placeholders themselves --------------------------------------

  /** Read from left to right, some placeholder of the text names a node that is to be renamed. */
  predicate Mentions(t: string, rewritable: map<Id, Id>)
    decreases |t|
  {
    t != "" &&
    match MatchHere(t)
    case None => Mentions(t[1..], rewritable)
    case Some(p) => p.node in rewritable || Mentions(t[|Written(p)|..], rewritable)
  }

  /** Renaming makes every id longer, as adding a prefix does. */
  ghost predicate Lengthens(rewritable: map<Id, Id>) {
    forall n :: n in rewritable ==> |rewritable[n]| > |n|
  }

  lemma SplitAt(t: string, n: nat)
    requires n <= |t|
    ensures t == t[..n] + t[n..]
  {
  }

  lemma {:induction false} UnmentionedStays(t: string, rewritable: map<Id, Id>)
    requires !Mentions(t, rewritable)
    ensures Substitute(t, rewritable) == t
    decreases |t|
  {
    if t != "" {
      match MatchHere(t)
      case None =>
        UnmentionedStays(t[1..], rewritable);
        assert t == t[..1] + t[1..];
      case Some(p) =>
        var n := |Written(p)|;
        UnmentionedStays(t[n..], rewritable);
        assert p.node !in rewritable;
        assert Substitute(t, rewritable) == Written(p) + t[n..];
        SplitAt(t, n);
    }
  }

  lemma {:induction false} MentionedGrows(t: string, rewritable: map<Id, Id>)
    requires Lengthens(rewritable)
    ensures |Substitute(t, rewritable)| >= |t|
    ensures Mentions(t, rewritable) ==> |Substitute(t, rewritable)| > |t|
    decreases |t|
  {
    if t != "" {
      match MatchHere(t)
      case None => MentionedGrows(t[1..], rewritable);
      case Some(p) =>
        MentionedGrows(t[|Written(p)|..], rewritable);
        WrittenNode(p);
        if p.node in rewritable {
          WrittenNode(p.(node := rewritable[p.node]));
        }
    }
  }

  /** Remapping renames references as intended exactly when no phantom reference mentions a node to be renamed. */
  lemma RemapRenamesExactly(v: Json, allowExpr: bool, mapping: map<Id, Id>, rewritable: map<Id, Id>)
    requires Lengthens(rewritable)
    ensures Refs(Remap(v, mapping, rewritable), allowExpr) == Intended(Refs(v, allowExpr), mapping)
       <==> forall ref :: ref in Refs(v, allowExpr) && ref !in mapping ==> !Mentions(ref, rewritable)
  {
    RemapRenamesUnchanged(v, allowExpr, mapping, rewritable);
    forall ref ensures Substitute(ref, rewritable) == ref <==> !Mentions(ref, rewritable) {
      MentionedGrows(ref, rewritable);
      if !Mentions(ref, rewritable) {
        UnmentionedStays(ref, rewritable);
      }
    }
  }

  lemma WrittenNode(p: Placeholder)
    ensures |Written(p)| == |p.node| + |p.path| + 4
    ensures Written(p)[2..2 + |p.node|] == p.node
  {
  }

  /** A phantom id that is itself a placeholder of a renamed node is rewritten, although it should stay. */
  lemma PhantomPlaceholderMoves(p: Placeholder, path: Json, mapping: map<Id, Id>, rewritable: map<Id, Id>)
    requires WellFormed(p) && p.node in rewritable && rewritable[p.node] != p.node && Written(p) !in mapping
    ensures var v := Obj(Field("node", Str(Written(p)), Field("path", path, NoField)));
      Refs(Remap(v, mapping, rewritable), true) != Intended(Refs(v, true), mapping)
  {
    var fields := Field("node", Str(Written(p)), Field("path", path, NoField));
    assert Get(fields.rest, "path") == Some(path);
    assert Get(fields, "path") == Some(path);
    assert Refs(Obj(fields), true) == [Written(p)];
    var p' := p.(node := rewritable[p.node]);
    assert Written(p) + "" == Written(p);
    SubstituteWritten(p, "", rewritable);
    assert Substitute("", rewritable) == "";
    assert Substitute(Written(p), rewritable) == Written(p');
    WrittenNode(p);
    WrittenNode(p');
    RemapRenamesUnchanged(Obj(fields), true, mapping, rewritable);
  }

  // ----- no old name is left ---------------------------------------------------------------------

  /** The first `}` of the text closes no placeholder: no `.` stands far enough before it. */
  ghost predicate ClosesNothing(t: string, m: nat) {
    m < |t| && t[m] == '}' && forall i :: 0 <= i < m ==> t[i] != '}' && (i < m - 1 ==> t[i] != '.')
  }

  lemma ClosesNothingStays(t: string, m: nat)
    requires ClosesNothing(t, m)
    ensures MatchHere(t) == None
  {
    if MatchHere(t).Some? {
      var p := MatchHere(t).value;
      var w := Written(p);
      WrittenNode(p);
      assert w[|w| - 1] == '}' == t[|w| - 1];
      assert w[2 + |p.node|] == '.' == t[2 + |p.node|];
      WrittenEnds(p);
    }
  }

  lemma WrittenEnds(p: Placeholder)
    requires WellFormed(p)
    ensures forall i :: 0 <= i < |Written(p)| - 1 ==> Written(p)[i] != '}'
  {
  }

  /** So the substitution leaves everything up to it alone. */
  lemma {:induction false} StaysUpTo(t: string, m: nat, rewritable: map<Id, Id>)
    requires ClosesNothing(t, m)
    ensures t[..m + 1] <= Substitute(t, rewritable)
    decreases m
  {
    ClosesNothingStays(t, m);
    assert t[..m + 1] == t[..1] + t[1..][..m];
    if m > 0 {
      StaysUpTo(t[1..], m - 1, rewritable);
    }
  }

  lemma MatchCloses(t: string)
    ensures MatchHere(t).Some? ==> '}' in t
  {
    if MatchHere(t).Some? {
      var w := Written(MatchHere(t).value);
      assert t[|w| - 1] == w[|w| - 1] == '}';
    }
  }

  lemma {:induction false} SubstituteUnclosed(t: string, rewritable: map<Id, Id>)
    requires '}' !in t
    ensures Substitute(t, rewritable) == t
  {
    if t != "" {
      MatchCloses(t);
      SubstituteUnclosed(t[1..], rewritable);
      assert t == t[..1] + t[1..];
    }
  }

  /** The substitution makes no placeholder where there was none. */
  lemma NoneStaysNone(t: string, rewritable: map<Id, Id>)
    requires t != "" && MatchHere(t) == None
    ensures MatchHere(Substitute(t, rewritable)) == None
  {
    var u := Substitute(t, rewritable);
    if '}' !in t {
      SubstituteUnclosed(t, rewritable);
    } else if t[0] == '$' && |t| > 1 && t[1] == '{' {
      var m := Run(t, {'}'});
      if |t| > 2 && t[2] == '.' {
        DotStays(t, rewritable);
      } else {
        OpenedClosesNothing(t, m);
        StaysUpTo(t, m, rewritable);
        assert ClosesNothing(u, m);
        ClosesNothingStays(u, m);
      }
    } else {
      NotOpened(t, rewritable);
    }
  }

  lemma DotStays(t: string, rewritable: map<Id, Id>)
    requires |t| > 2 && t[0] == '$' && t[1] == '{' && t[2] == '.'
    ensures MatchHere(Substitute(t, rewritable)) == None
  {
    assert MatchHere(t) == None && MatchHere(t[1..]) == None && MatchHere(t[1..][1..]) == None;
    assert t[1..][1..][0] == '.';
    var u, v, w := Substitute(t, rewritable), Substitute(t[1..], rewritable), Substitute(t[1..][1..], rewritable);
    assert w[0] == '.';
    assert v == t[1..][..1] + w && u == t[..1] + v;
    assert u[2..] == w;
  }

  lemma NotOpened(t: string, rewritable: map<Id, Id>)
    requires t != "" && (t[0] != '$' || |t| == 1 || t[1] != '{')
    ensures MatchHere(Substitute(t, rewritable)) == None
  {
    assert MatchHere(t) == None;
    if t[0] == '$' && |t| > 1 {
      assert Substitute(t[1..], rewritable)[0] == t[1];
    }
  }

  /** An opened text that is no placeholder has no `.` between a name and its first `}`. */
  lemma OpenedClosesNothing(t: string, m: nat)
    requires |t| > 2 && t[0] == '$' && t[1] == '{' && t[2] != '.' && MatchHere(t) == None
    requires '}' in t && m == Run(t, {'}'})
    ensures ClosesNothing(t, m)
  {
  }

  /** After the substitution the text names no node that was to be renamed, if no new name is an old one. */
  lemma {:induction false} SubstituteForgets(t: string, rewritable: map<Id, Id>)
    requires forall n :: n in rewritable && WellNamed(n) ==> WellNamed(rewritable[n]) && rewritable[n] !in rewritable
    ensures !Mentions(Substitute(t, rewritable), rewritable)
    decreases |t|
  {
    if t != "" {
      var u := Substitute(t, rewritable);
      match MatchHere(t)
      case None =>
        NoneStaysNone(t, rewritable);
        SubstituteForgets(t[1..], rewritable);
        assert u[1..] == Substitute(t[1..], rewritable);
      case Some(p) =>
        var p' := if p.node in rewritable then p.(node := rewritable[p.node]) else p;
        var rest := Substitute(t[|Written(p)|..], rewritable);
        SubstituteForgets(t[|Written(p)|..], rewritable);
        MatchWritten(p', rest);
        assert u == Written(p') + rest;
        assert u[|Written(p')|..] == rest;
    }
  }

  /** The same for every text of a spec. */
  lemma RemapForgets(v: Json, mapping: map<Id, Id>, rewritable: map<Id, Id>, i: nat)
    requires forall n :: n in rewritable && WellNamed(n) ==> WellNamed(rewritable[n]) && rewritable[n] !in rewritable
    requires i < |Leaves(v, false)|
    ensures |Leaves(Remap(v, mapping, rewritable), false)| == |Leaves(v, false)|
    ensures
      var before, after := Leaves(v, false)[i], Leaves(Remap(v, mapping, rewritable), false)[i];
      if before.isNode && before.text in mapping then after.text == mapping[before.text] else !Mentions(after.text, rewritable)
  {
    RemapRenamesTexts(v, mapping, rewritable);
    SubstituteForgets(Leaves(v, false)[i].text, rewritable);
  }

  /** The opening of a placeholder does not occur. */
  ghost predicate NoOpening(t: string) {
    forall i, j :: 0 <= i && j == i + 1 && j < |t| && t[i] == '$' ==> t[j] != '{'
  }

  lemma {:induction false} NoOpeningMentionsNothing(t: string, rewritable: map<Id, Id>)
    requires NoOpening(t)
    ensures !Mentions(t, rewritable)
    decreases |t|
  {
    if t != "" {
      assert MatchHere(t) == None;
      assert forall i :: 0 <= i < |t[1..]| ==> t[1..][i] == t[i + 1];
      NoOpeningMentionsNothing(t[1..], rewritable);
    }
  }

  /** In particular when no phantom reference opens a placeholder, whatever the renaming is. */
  lemma RemapRenames(v: Json, allowExpr: bool, mapping: map<Id, Id>, rewritable: map<Id, Id>)
    requires forall ref :: ref in Refs(v, allowExpr) && ref !in mapping ==> NoOpening(ref)
    ensures Refs(Remap(v, mapping, rewritable), allowExpr) == Intended(Refs(v, allowExpr), mapping)
  {
    forall ref | ref in Refs(v, allowExpr) && ref !in mapping ensures Substitute(ref, rewritable) == ref {
      NoOpeningMentionsNothing(ref, rewritable);
      UnmentionedStays(ref, rewritable);
    }
    RemapRenamesUnchanged(v, allowExpr, mapping, rewritable);
  }
}
