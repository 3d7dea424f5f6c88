/** The references of a schema: collecting them, and what each must lead to. */
module References {
  import opened Wrappers
  import opened Text
  import opened JsonPointer

  // ---- collecting references ----

  function RefOf(node: Json): Option<string> {
    if node.JObject? then
      var r := Get(node.fields, "$ref");
      if r.Some? && r.value.JString? then Some(r.value.s) else None
    else None
  }

  function CollectRefs(node: Json): seq<string>
    decreases node, 1
  {
    match node
    case JObject(fields) => (if RefOf(node).Some? then [RefOf(node).value] else []) + FieldRefs(fields)
    case JArray(items) => ItemRefs(items)
    case _ => []
  }

  function FieldRefs(fields: seq<Field>): seq<string>
    decreases fields, 0
  {
    if fields == [] then [] else CollectRefs(fields[0].value) + FieldRefs(fields[1..])
  }

  function ItemRefs(items: seq<Json>): seq<string>
    decreases items, 0
  {
    if items == [] then [] else CollectRefs(items[0]) + ItemRefs(items[1..])
  }

  /** The string references of the object nodes among these visits, in order. */
  function RefsAmong(visits: seq<Visit>): seq<string> {
    if visits == [] then []
    else (if RefOf(visits[0].node).Some? then [RefOf(visits[0].node).value] else []) + RefsAmong(visits[1..])
  }

  lemma {:induction false} RefsAmongConcat(a: seq<Visit>, b: seq<Visit>)
    ensures RefsAmong(a + b) == RefsAmong(a) + RefsAmong(b)
  {
    if a == [] {
      assert a + b == b;
    } else {
      assert (a + b)[1..] == a[1..] + b;
      RefsAmongConcat(a[1..], b);
    }
  }

  /** The two walkers agree: the same references in the same order, from any starting path. */
  lemma {:induction false} WalkersAgree(node: Json, path: seq<Step>)
    ensures CollectRefs(node) == RefsAmong(WalkNodes(node, path))
    decreases node, 1
  {
    var here := [Visit(node, path)];
    assert here[1..] == [];
    match node
    case JObject(fields) =>
      FieldWalkersAgree(fields, path);
      RefsAmongConcat(here, WalkFields(fields, path));
    case JArray(items) =>
      ItemWalkersAgree(items, 0, path);
      RefsAmongConcat(here, WalkItems(items, 0, path));
    case _ =>
  }

  lemma {:induction false} FieldWalkersAgree(fields: seq<Field>, path: seq<Step>)
    ensures FieldRefs(fields) == RefsAmong(WalkFields(fields, path))
    decreases fields, 0
  {
    if fields != [] {
      WalkersAgree(fields[0].value, path + [Key(fields[0].key)]);
      FieldWalkersAgree(fields[1..], path);
      RefsAmongConcat(WalkNodes(fields[0].value, path + [Key(fields[0].key)]), WalkFields(fields[1..], path));
    }
  }

  lemma {:induction false} ItemWalkersAgree(items: seq<Json>, from: nat, path: seq<Step>)
    ensures ItemRefs(items) == RefsAmong(WalkItems(items, from, path))
    decreases items, 0
  {
    if items != [] {
      WalkersAgree(items[0], path + [Index(from)]);
      ItemWalkersAgree(items[1..], from + 1, path);
      RefsAmongConcat(WalkNodes(items[0], path + [Index(from)]), WalkItems(items[1..], from + 1, path));
    }
  }

  lemma {:induction false} RefsAmongMembers(visits: seq<Visit>, ref: string)
    ensures ref in RefsAmong(visits) <==> exists v | v in visits :: RefOf(v.node) == Some(ref)
  {
    if visits != [] {
      RefsAmongMembers(visits[1..], ref);
      assert forall v :: v in visits <==> v == visits[0] || v in visits[1..];
    }
  }

  // ---- checking references ----

  /** A sibling file, as the checker finds it. */
  datatype File = Missing | Unparsable | Loaded(doc: Json)

  function MetaschemaUri(): string {
    "https://" + "json-schema.org/" + "draft/2020-12/" + "schema"
  }

  predicate StartsWith(s: string, prefix: string) {
    prefix <= s
  }

  function BeforeHash(s: string): string {
    if s == [] || s[0] == '#' then "" else [s[0]] + BeforeHash(s[1..])
  }

  function AfterHash(s: string): string {
    if s == [] then "" else if s[0] == '#' then s[1..] else AfterHash(s[1..])
  }

  datatype RefError = UnresolvedLocal | ExternalRef | OutsideDir | TargetMissing | TargetUnparsable | NotAPointer | UnresolvedRef

  /** The branches of the reference check; siblings maps a relative name to the file found under it. */
  function CheckRef(metaschema: string, ref: string, source: Json, siblings: string -> File): Option<RefError> {
    if StartsWith(ref, "#") then
      if ref[1..] == "" then None
      else if Resolve(source, ref[1..]) == JNull then Some(UnresolvedLocal) else None
    else
      var uri, fragment := BeforeHash(ref), AfterHash(ref);
      if StartsWith(uri, "http://") || StartsWith(uri, "https://") then
        if uri == metaschema then None else Some(ExternalRef)
      else if StartsWith(uri, "file:") || StartsWith(uri, "/") || ".." in Split(uri, '/') then Some(OutsideDir)
      else match siblings(uri)
        case Missing => Some(TargetMissing)
        case Unparsable => Some(TargetUnparsable)
        case Loaded(doc) =>
          if fragment == "" then None
          else if !StartsWith(fragment, "/") then Some(NotAPointer)
          else if Resolve(doc, fragment) == JNull then Some(UnresolvedRef) else None
  }

  /** What an accepted reference leads to, told by how it is composed. */
  ghost predicate Leads(metaschema: string, ref: string, source: Json, siblings: string -> File) {
    || (exists p :: LeadsInside(ref, p, source))
    || (exists f :: LeadsToMetaschema(metaschema, ref, f))
    || (exists uri, p :: LeadsToSibling(ref, uri, p, siblings))
  }

  /** The document itself, or a node of it. */
  ghost predicate LeadsInside(ref: string, p: string, source: Json) {
    ref == "#" + p && (p == "" || Resolve(source, p) != JNull)
  }

  /** The metaschema, with or without a fragment. */
  ghost predicate LeadsToMetaschema(metaschema: string, ref: string, f: string) {
    ref == metaschema + f && (f == "" || f[0] == '#')
  }

  ghost predicate LeadsToSibling(ref: string, uri: string, p: string, siblings: string -> File) {
    && '#' !in uri && (ref == uri + "#" + p || (ref == uri && p == "")) && !StartsWith(ref, "#")
    && !StartsWith(uri, "http://") && !StartsWith(uri, "https://")
    && !StartsWith(uri, "file:") && !StartsWith(uri, "/") && ".." !in Split(uri, '/')
    && siblings(uri).Loaded?
    && (p == "" || (p[0] == '/' && Resolve(siblings(uri).doc, p) != JNull))
  }

  lemma {:induction false} HashParts(s: string)
    ensures '#' !in BeforeHash(s)
    ensures s == BeforeHash(s) + "#" + AfterHash(s) || (s == BeforeHash(s) && AfterHash(s) == "")
  {
    if s != [] && s[0] != '#' {
      HashParts(s[1..]);
      assert s == [s[0]] + s[1..];
    } else if s != [] {
      assert s == "#" + s[1..];
    }
  }

  lemma {:induction false} HashPartsUnique(uri: string, p: string)
    requires '#' !in uri
    ensures BeforeHash(uri + "#" + p) == uri && AfterHash(uri + "#" + p) == p
    ensures BeforeHash(uri) == uri && AfterHash(uri) == ""
  {
    if uri == [] {
      assert uri + "#" + p == "#" + p;
    } else {
      HashPartsUnique(uri[1..], p);
      assert (uri + "#" + p)[1..] == uri[1..] + "#" + p;
    }
  }

  lemma AcceptedLeads(metaschema: string, ref: string, source: Json, siblings: string -> File)
    requires CheckRef(metaschema, ref, source, siblings).None?
    ensures Leads(metaschema, ref, source, siblings)
  {
    if StartsWith(ref, "#") {
      AcceptedInside(metaschema, ref, source, siblings);
    } else if BeforeHash(ref) == metaschema {
      AcceptedMetaschema(metaschema, ref);
    } else {
      AcceptedSibling(metaschema, ref, source, siblings);
    }
  }

  lemma AcceptedInside(metaschema: string, ref: string, source: Json, siblings: string -> File)
    requires CheckRef(metaschema, ref, source, siblings).None? && StartsWith(ref, "#")
    ensures LeadsInside(ref, ref[1..], source)
  {
    assert ref == "#" + ref[1..];
  }

  lemma AcceptedMetaschema(metaschema: string, ref: string)
    requires BeforeHash(ref) == metaschema
    ensures exists f :: LeadsToMetaschema(metaschema, ref, f)
  {
    HashParts(ref);
    var f := ref[|metaschema|..];
    assert ref == metaschema + f;
    assert LeadsToMetaschema(metaschema, ref, f);
  }

  lemma AcceptedSibling(metaschema: string, ref: string, source: Json, siblings: string -> File)
    requires CheckRef(metaschema, ref, source, siblings).None? && !StartsWith(ref, "#") && BeforeHash(ref) != metaschema
    ensures LeadsToSibling(ref, BeforeHash(ref), AfterHash(ref), siblings)
  {
    HashParts(ref);
    var fragment := AfterHash(ref);
    assert StartsWith(fragment, "/") ==> fragment[0] == "/"[0];
  }

  lemma LeadingAccepted(metaschema: string, ref: string, source: Json, siblings: string -> File)
    requires IsPlain(metaschema) && Leads(metaschema, ref, source, siblings)
    ensures CheckRef(metaschema, ref, source, siblings).None?
  {
    if exists p :: LeadsInside(ref, p, source) {
      var p :| LeadsInside(ref, p, source);
      InsideAccepted(metaschema, ref, p, source, siblings);
    } else if exists f :: LeadsToMetaschema(metaschema, ref, f) {
      var f :| LeadsToMetaschema(metaschema, ref, f);
      MetaschemaAccepted(metaschema, f, source, siblings);
    } else {
      var uri, p :| LeadsToSibling(ref, uri, p, siblings);
      SiblingAccepted(metaschema, ref, uri, p, source, siblings);
    }
  }

  lemma InsideAccepted(metaschema: string, ref: string, p: string, source: Json, siblings: string -> File)
    requires LeadsInside(ref, p, source)
    ensures CheckRef(metaschema, ref, source, siblings).None?
  {
    assert ref[1..] == p;
  }

  lemma SiblingAccepted(metaschema: string, ref: string, uri: string, p: string, source: Json, siblings: string -> File)
    requires LeadsToSibling(ref, uri, p, siblings)
    ensures CheckRef(metaschema, ref, source, siblings).None?
  {
    HashPartsUnique(uri, p);
    assert p != "" && p[0] == '/' ==> StartsWith(p, "/");
  }

  predicate IsPlain(uri: string) {
    '#' !in uri && StartsWith(uri, "https://")
  }

  lemma MetaschemaIsPlain()
    ensures IsPlain(MetaschemaUri())
  {
  }

  lemma HeadBeforeHash(uri: string, f: string)
    requires '#' !in uri && (f == "" || f[0] == '#')
    ensures BeforeHash(uri + f) == uri
  {
    if f == "" {
      HashPartsUnique(uri, "");
      assert uri + f == uri;
    } else {
      HeadBeforeFragment(uri, f);
    }
  }

  lemma HeadBeforeFragment(uri: string, f: string)
    requires '#' !in uri && f != "" && f[0] == '#'
    ensures BeforeHash(uri + f) == uri
  {
    var p := f[1..];
    assert f == "#" + p;
    HashPartsUnique(uri, p);
    assert uri + ("#" + p) == uri + "#" + p;
  }

  lemma MetaschemaAccepted(metaschema: string, f: string, source: Json, siblings: string -> File)
    requires IsPlain(metaschema) && (f == "" || f[0] == '#')
    ensures CheckRef(metaschema, metaschema + f, source, siblings).None?
  {
    HeadBeforeHash(metaschema, f);
    assert (metaschema + f)[0] == metaschema[0] == "https://"[0];
  }

  /** A reference draws no error exactly when it leads somewhere. */
  lemma CheckRefExact(metaschema: string, ref: string, source: Json, siblings: string -> File)
    requires IsPlain(metaschema)
    ensures CheckRef(metaschema, ref, source, siblings).None? <==> Leads(metaschema, ref, source, siblings)
  {
    if CheckRef(metaschema, ref, source, siblings).None? {
      AcceptedLeads(metaschema, ref, source, siblings);
    } else if Leads(metaschema, ref, source, siblings) {
      LeadingAccepted(metaschema, ref, source, siblings);
    }
  }

  ghost predicate AllLead(metaschema: string, refs: seq<string>, schema: Json, siblings: string -> File) {
    forall k | 0 <= k < |refs| :: Leads(metaschema, refs[k], schema, siblings)
  }

  /** The errors of bad references, in order. */
  function ErrorsOf(metaschema: string, refs: seq<string>, schema: Json, siblings: string -> File): seq<RefError> {
    if refs == [] then []
    else
      var n := |refs| - 1;
      var err := CheckRef(metaschema, refs[n], schema, siblings);
      ErrorsOf(metaschema, refs[..n], schema, siblings) + if err.Some? then [err.value] else []
  }

  lemma {:induction false} NoErrors(metaschema: string, refs: seq<string>, schema: Json, siblings: string -> File)
    requires IsPlain(metaschema)
    ensures ErrorsOf(metaschema, refs, schema, siblings) == [] <==> AllLead(metaschema, refs, schema, siblings)
  {
    if refs != [] {
      var n := |refs| - 1;
      NoErrors(metaschema, refs[..n], schema, siblings);
      CheckRefExact(metaschema, refs[n], schema, siblings);
      AllLeadLast(metaschema, refs, schema, siblings);
      assert ErrorsOf(metaschema, refs, schema, siblings) == [] <==>
               ErrorsOf(metaschema, refs[..n], schema, siblings) == [] && CheckRef(metaschema, refs[n], schema, siblings).None?;
    }
  }

  lemma AllLeadLast(metaschema: string, refs: seq<string>, schema: Json, siblings: string -> File)
    requires refs != []
    ensures AllLead(metaschema, refs, schema, siblings) <==>
              AllLead(metaschema, refs[..|refs| - 1], schema, siblings) && Leads(metaschema, refs[|refs| - 1], schema, siblings)
  {
    assert forall k | 0 <= k < |refs| - 1 :: refs[k] == refs[..|refs| - 1][k];
  }

  /** The loop over the references of a schema. */
  method CheckEach(metaschema: string, refs: seq<string>, schema: Json, siblings: string -> File) returns (errors: seq<RefError>)
    ensures errors == ErrorsOf(metaschema, refs, schema, siblings)
  {
    errors := [];
    for i := 0 to |refs|
      invariant errors == ErrorsOf(metaschema, refs[..i], schema, siblings)
    {
      assert refs[..i + 1][..i] == refs[..i];
      var err := CheckRef(metaschema, refs[i], schema, siblings);
      if err.Some? {
        errors := errors + [err.value];
      }
    }
    assert refs[..|refs|] == refs;
  }

  /** The node at this path has a member $ref that is this string. */
  ghost predicate HasRef(schema: Json, path: seq<Step>, ref: string) {
    At(schema, path + [Key("$ref")]) == Some(JString(ref))
  }

  lemma {:induction false} FrontExists(node: Json, path: seq<Step>, step: Step)
    requires At(node, path + [step]).Some?
    ensures At(node, path).Some?
    decreases |path|
  {
    if path != [] {
      assert (path + [step])[1..] == path[1..] + [step];
      FrontExists(Child(node, path[0]).value, path[1..], step);
    }
  }

  /** A node's own reference is its member of that name. */
  lemma RefIsMember(schema: Json, path: seq<Step>, ref: string)
    requires At(schema, path).Some?
    ensures HasRef(schema, path, ref) <==> RefOf(At(schema, path).value) == Some(ref)
  {
    var node, last := At(schema, path).value, [Key("$ref")];
    AtAppend(schema, path, last);
    assert last[1..] == [];
    assert At(node, last) == Child(node, last[0]);
  }

  /** Exactly the string members named $ref are collected, at every depth. */
  lemma CollectedExact(schema: Json, ref: string)
    requires WellFormed(schema)
    ensures ref in CollectRefs(schema) <==> exists path :: HasRef(schema, path, ref)
  {
    WalkersAgree(schema, []);
    RefsAmongMembers(WalkNodes(schema, []), ref);
    if ref in CollectRefs(schema) {
      var v :| v in WalkNodes(schema, []) && RefOf(v.node) == Some(ref);
      WalkIsExact(schema, v);
      RefIsMember(schema, v.path, ref);
    }
    if exists path :: HasRef(schema, path, ref) {
      var path :| HasRef(schema, path, ref);
      FrontExists(schema, path, Key("$ref"));
      RefIsMember(schema, path, ref);
      WalkIsExact(schema, Visit(At(schema, path).value, path));
    }
  }

  /**
   * A schema draws no reference error exactly when every string member named
   * $ref, at any depth, leads somewhere; otherwise the errors are those of the
   * collected references in order.
   */
  method CheckReferences(schema: Json, siblings: string -> File) returns (errors: seq<RefError>)
    ensures WellFormed(schema) ==>
              (errors == [] <==> forall path, ref | HasRef(schema, path, ref) :: Leads(MetaschemaUri(), ref, schema, siblings))
    ensures errors == ErrorsOf(MetaschemaUri(), CollectRefs(schema), schema, siblings)
  {
    var refs := CollectRefs(schema);
    errors := CheckEach(MetaschemaUri(), refs, schema, siblings);
    MetaschemaIsPlain();
    NoErrors(MetaschemaUri(), refs, schema, siblings);
    AllLeadMeans(MetaschemaUri(), refs, schema, siblings);
    ghost var wellFormed := WellFormed(schema);
    if wellFormed {
      forall ref
        ensures ref in refs <==> exists path :: HasRef(schema, path, ref)
      {
        CollectedExact(schema, ref);
      }
    }
  }

  /**
   * The verdict on a reference by its parts: a name without a hash sign, and a
   * fragment after one or none.
   */
  lemma CheckRefByParts(metaschema: string, uri: string, p: string, ref: string, source: Json, siblings: string -> File)
    requires '#' !in uri && uri != "" && (ref == uri + "#" + p || (ref == uri && p == ""))
    ensures CheckRef(metaschema, "#" + p, source, siblings)
         == if p == "" || Resolve(source, p) != JNull then None else Some(UnresolvedLocal)
    ensures CheckRef(metaschema, ref, source, siblings) ==
              if "http://" <= uri || "https://" <= uri then (if uri == metaschema then None else Some(ExternalRef))
              else if "file:" <= uri || "/" <= uri || ".." in Split(uri, '/') then Some(OutsideDir)
              else if siblings(uri).Missing? then Some(TargetMissing)
              else if siblings(uri).Unparsable? then Some(TargetUnparsable)
              else if p == "" then None
              else if p[0] != '/' then Some(NotAPointer)
              else if Resolve(siblings(uri).doc, p) == JNull then Some(UnresolvedRef) else None
  {
    assert ("#" + p)[1..] == p;
    HashPartsUnique(uri, p);
    assert ref[0] == uri[0] && uri[0] in uri;
    assert !StartsWith(ref, "#");
    assert p != "" ==> (StartsWith(p, "/") <==> p[0] == "/"[0]);
  }

  lemma AllLeadMeans(metaschema: string, refs: seq<string>, schema: Json, siblings: string -> File)
    ensures AllLead(metaschema, refs, schema, siblings) <==> forall ref | ref in refs :: Leads(metaschema, ref, schema, siblings)
  {
    assert forall k | 0 <= k < |refs| :: refs[k] in refs;
  }
}
