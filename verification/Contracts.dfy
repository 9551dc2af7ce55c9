/**
 `validate_contracts.py`: the checks on an OpenAPI document, and what the reference check buys for
 following schema references.
 */
module Contracts {
  import opened Wrappers
  import opened Numerals

  /** A mapping key; YAML also has keys that are no strings, such as an unquoted 200. */
  datatype Key = Name(text: string) | OtherKey(n: int)

  /** A loaded YAML value; numbers, dates and the like matter by their truth value only. */
  datatype Value =
    | Null
    | Bool(b: bool)
    | Text(text: string)
    | Other(truthy: bool)
    | List(items: seq<Value>)
    | Mapping(fields: map<Key, Value>)

  const SCHEMA_PREFIX := "#/components/schemas/"
  const HEADER_PREFIX := "#/components/headers/"
  const RESPONSE_PREFIX := "#/components/responses/"

  /** `mapping.get(name)`; Python's None stands for a missing key. */
  function Get(fields: map<Key, Value>, name: string): Value {
    if Name(name) in fields then fields[Name(name)] else Null
  }

  function Truthy(v: Value): bool {
    match v
    case Null => false
    case Bool(b) => b
    case Text(t) => t != ""
    case Other(t) => t
    case List(items) => items != []
    case Mapping(fields) => fields != map[]
  }

  /** The values Python takes for false. */
  lemma TruthyMeans(v: Value)
    ensures Truthy(v) <==> v !in {Null, Bool(false), Text(""), Other(false), List([]), Mapping(map[])}
  {
  }

  // ---------------------------------------------------------------------------------------------
  // References
  // ---------------------------------------------------------------------------------------------

  predicate ReferenceAllowed(reference: string, schemas: map<Key, Value>) {
    if SCHEMA_PREFIX <= reference then Name(reference[|SCHEMA_PREFIX|..]) in schemas
    else HEADER_PREFIX <= reference || RESPONSE_PREFIX <= reference
  }

  /** `validate_refs`, with False for a raised `ContractError`. */
  predicate ValidateRefs(value: Value, schemas: map<Key, Value>) {
    match value
    case Mapping(fields) =>
      && (Get(fields, "$ref").Text? ==> ReferenceAllowed(Get(fields, "$ref").text, schemas))
      && forall k | k in fields :: ValidateRefs(fields[k], schemas)
    case List(items) => forall i | 0 <= i < |items| :: ValidateRefs(items[i], schemas)
    case _ => true
  }

  /** One step down into a document. */
  datatype Step = Field(key: Key) | Index(i: nat)

  /** The value at a path, if the path exists. */
  function At(value: Value, path: seq<Step>): Option<Value>
    decreases |path|
  {
    if path == [] then Some(value)
    else match (value, path[0])
      case (Mapping(fields), Field(key)) => if key in fields then At(fields[key], path[1..]) else None
      case (List(items), Index(i)) => if i < |items| then At(items[i], path[1..]) else None
      case _ => None
  }

  /** The text of a value's own `$ref`, if it has one. */
  function ReferenceOf(value: Value): Option<string> {
    if value.Mapping? && Get(value.fields, "$ref").Text? then Some(Get(value.fields, "$ref").text) else None
  }

  lemma {:induction false} ValidAtPath(value: Value, path: seq<Step>, schemas: map<Key, Value>)
    requires ValidateRefs(value, schemas) && At(value, path).Some?
    ensures ValidateRefs(At(value, path).value, schemas)
    decreases |path|
  {
    if path != [] {
      match (value, path[0])
      case (Mapping(fields), Field(key)) => ValidAtPath(fields[key], path[1..], schemas);
      case (List(items), Index(i)) => ValidAtPath(items[i], path[1..], schemas);
    }
  }

  lemma {:induction false} OffendingPath(value: Value, schemas: map<Key, Value>) returns (path: seq<Step>)
    requires !ValidateRefs(value, schemas)
    ensures At(value, path).Some? && ReferenceOf(At(value, path).value).Some?
    ensures !ReferenceAllowed(ReferenceOf(At(value, path).value).value, schemas)
    decreases value
  {
    match value
    case Mapping(fields) =>
      if ReferenceOf(value).Some? && !ReferenceAllowed(ReferenceOf(value).value, schemas) {
        path := [];
      } else {
        var k :| k in fields && !ValidateRefs(fields[k], schemas);
        var rest := OffendingPath(fields[k], schemas);
        path := [Field(k)] + rest;
        assert path[1..] == rest;
      }
    case List(items) =>
      var i :| 0 <= i < |items| && !ValidateRefs(items[i], schemas);
      var rest := OffendingPath(items[i], schemas);
      path := [Index(i)] + rest;
      assert path[1..] == rest;
  }

  /** The mapping at the path has this text as its `$ref`. */
  ghost predicate RefersTo(value: Value, path: seq<Step>, reference: string) {
    && At(value, path).Some? && At(value, path).value.Mapping?
    && var fields := At(value, path).value.fields;
       Name("$ref") in fields && fields[Name("$ref")] == Text(reference)
  }

  ghost predicate NamesSchema(reference: string, schemas: map<Key, Value>) {
    exists name :: reference == SCHEMA_PREFIX + name && Name(name) in schemas
  }

  /** A reference may name a defined schema, or whatever it likes behind the header and response prefixes. */
  ghost predicate ReferenceRule(reference: string, schemas: map<Key, Value>) {
    NamesSchema(reference, schemas) || HEADER_PREFIX <= reference || RESPONSE_PREFIX <= reference
  }

  /** Every reference at every depth keeps to the rule. */
  ghost predicate ReferencesOk(value: Value, schemas: map<Key, Value>) {
    forall path, reference :: RefersTo(value, path, reference) ==> ReferenceRule(reference, schemas)
  }

  lemma PrefixesExclude(reference: string)
    requires HEADER_PREFIX <= reference || RESPONSE_PREFIX <= reference
    ensures !(SCHEMA_PREFIX <= reference)
  {
    assert SCHEMA_PREFIX[13] == 's' && (reference[13] == 'h' || reference[13] == 'r');
  }

  lemma AllowedMeans(reference: string, schemas: map<Key, Value>)
    ensures ReferenceAllowed(reference, schemas) <==> ReferenceRule(reference, schemas)
  {
    if HEADER_PREFIX <= reference || RESPONSE_PREFIX <= reference {
      PrefixesExclude(reference);
    } else {
      if SCHEMA_PREFIX <= reference {
        assert reference == SCHEMA_PREFIX + reference[|SCHEMA_PREFIX|..];
      }
      if name :| reference == SCHEMA_PREFIX + name && Name(name) in schemas {
        assert SCHEMA_PREFIX <= reference && reference[|SCHEMA_PREFIX|..] == name;
      }
    }
  }

  /** `validate_refs` accepts exactly the documents in which every reference, at every depth, keeps to the rule. */
  lemma {:induction false} ValidateRefsMeans(value: Value, schemas: map<Key, Value>)
    ensures ValidateRefs(value, schemas) <==> ReferencesOk(value, schemas)
  {
    if ValidateRefs(value, schemas) {
      forall path, reference | RefersTo(value, path, reference) ensures ReferenceRule(reference, schemas) {
        ValidAtPath(value, path, schemas);
        AllowedMeans(reference, schemas);
      }
    } else {
      var path := OffendingPath(value, schemas);
      var reference := ReferenceOf(At(value, path).value).value;
      assert RefersTo(value, path, reference);
      AllowedMeans(reference, schemas);
    }
  }

  /** No reference that names a defined schema is ever refused. */
  lemma DefinedReferencesAccepted(value: Value, schemas: map<Key, Value>)
    requires forall path, reference :: RefersTo(value, path, reference) ==> NamesSchema(reference, schemas)
    ensures ValidateRefs(value, schemas)
  {
    ValidateRefsMeans(value, schemas);
  }

  // ---------------------------------------------------------------------------------------------
  // The whole contract
  // ---------------------------------------------------------------------------------------------

  /** `require_mapping`, with None for a raised error. */
  function RequireMapping(v: Value): Option<map<Key, Value>> {
    if v.Mapping? then Some(v.fields) else None
  }

  datatype Expectations = Expectations(paths: set<Key>, schemas: set<Key>, properties: map<string, set<Key>>)

  /** The fields of the mapping found under a name, the empty mapping if there is none. */
  function Section(fields: map<Key, Value>, name: string): map<Key, Value> {
    if Get(fields, name).Mapping? then Get(fields, name).fields else map[]
  }

  function OperationId(item: Value): string {
    if item.Mapping? && Get(Section(item.fields, "get"), "operationId").Text?
    then Get(Section(item.fields, "get"), "operationId").text else ""
  }

  /** A path item with a `get` operation that has an identifier and a 200 response. */
  predicate OperationOk(item: Value) {
    && item.Mapping? && Get(item.fields, "get").Mapping? && OperationId(item) != ""
    && var operation := Get(item.fields, "get").fields;
       Get(operation, "responses").Mapping? && Name("200") in Section(operation, "responses")
  }

  /** An object schema must close its property set with a literal `false`. */
  predicate SchemaOk(v: Value) {
    && v.Mapping?
    && (Get(v.fields, "type") == Text("object") ==> Get(v.fields, "additionalProperties") == Bool(false))
  }

  predicate PropertiesOk(schemas: map<Key, Value>, name: string, expected: set<Key>) {
    && Get(schemas, name).Mapping?
    && Get(Get(schemas, name).fields, "properties").Mapping?
    && Section(Get(schemas, name).fields, "properties").Keys == expected
  }

  /** There is a value under the name, and it is not one that Python takes for false. */
  predicate HasValue(fields: map<Key, Value>, name: string) {
    && Name(name) in fields
    && fields[Name(name)] !in {Null, Bool(false), Text(""), Other(false), List([]), Mapping(map[])}
  }

  /** Everything the script demands of a document. */
  ghost predicate ContractOk(document: Value, expected: Expectations) {
    && document.Mapping?
    && var top := document.fields;
       var info, paths := Section(top, "info"), Section(top, "paths");
       var schemas := Section(Section(top, "components"), "schemas");
       && Get(top, "openapi") == Text("3.1.0")
       && Get(top, "info").Mapping? && HasValue(info, "title") && HasValue(info, "version")
       && Get(top, "paths").Mapping? && paths.Keys == expected.paths
       && (forall p | p in paths :: OperationOk(paths[p]))
       && (forall p, q | p in paths && q in paths && p != q :: OperationId(paths[p]) != OperationId(paths[q]))
       && Get(top, "components").Mapping? && Get(Section(top, "components"), "schemas").Mapping?
       && expected.schemas <= schemas.Keys
       && (forall s | s in schemas :: SchemaOk(schemas[s]))
       && (forall n | n in expected.properties :: PropertiesOk(schemas, n, expected.properties[n]))
       && ReferencesOk(document, schemas)
  }

  /** The loop over the paths, collecting operation identifiers. */
  method CheckOperations(paths: map<Key, Value>) returns (ok: bool)
    ensures ok <==>
      && (forall p | p in paths :: OperationOk(paths[p]))
      && (forall p, q | p in paths && q in paths && p != q :: OperationId(paths[p]) != OperationId(paths[q]))
  {
    var operationIds: set<string> := {};
    var pending := paths.Keys;
    while pending != {}
      invariant pending <= paths.Keys
      invariant forall p | p in paths && p !in pending :: OperationOk(paths[p]) && OperationId(paths[p]) in operationIds
      invariant forall id | id in operationIds :: exists p :: p in paths && p !in pending && OperationId(paths[p]) == id
      invariant forall p, q | p in paths && q in paths && p !in pending && q !in pending && p != q ::
        OperationId(paths[p]) != OperationId(paths[q])
      decreases pending
    {
      var route :| route in pending;
      var item := RequireMapping(paths[route]);
      if item.None? {
        return false;
      }
      var operation := RequireMapping(Get(item.value, "get"));
      if operation.None? {
        return false;
      }
      var operationId := Get(operation.value, "operationId");
      if !operationId.Text? || operationId.text == "" {
        return false;
      }
      if operationId.text in operationIds {
        assert OperationId(paths[route]) == operationId.text;
        return false;
      }
      operationIds := operationIds + {operationId.text};
      var responses := RequireMapping(Get(operation.value, "responses"));
      if responses.None? || Name("200") !in responses.value {
        return false;
      }
      pending := pending - {route};
    }
    return true;
  }

  method CheckSchemas(schemas: map<Key, Value>) returns (ok: bool)
    ensures ok <==> forall s | s in schemas :: SchemaOk(schemas[s])
  {
    var pending := schemas.Keys;
    while pending != {}
      invariant pending <= schemas.Keys
      invariant forall s | s in schemas && s !in pending :: SchemaOk(schemas[s])
      decreases pending
    {
      var name :| name in pending;
      var schema := RequireMapping(schemas[name]);
      if schema.None? {
        return false;
      }
      if Get(schema.value, "type") == Text("object") && Get(schema.value, "additionalProperties") != Bool(false) {
        return false;
      }
      pending := pending - {name};
    }
    return true;
  }

  method CheckProperties(schemas: map<Key, Value>, properties: map<string, set<Key>>) returns (ok: bool)
    ensures ok <==> forall n | n in properties :: PropertiesOk(schemas, n, properties[n])
  {
    var pending := properties.Keys;
    while pending != {}
      invariant pending <= properties.Keys
      invariant forall n | n in properties && n !in pending :: PropertiesOk(schemas, n, properties[n])
      decreases pending
    {
      var name :| name in pending;
      var schema := RequireMapping(Get(schemas, name));
      if schema.None? {
        return false;
      }
      var actual := RequireMapping(Get(schema.value, "properties"));
      if actual.None? || actual.value.Keys != properties[name] {
        return false;
      }
      pending := pending - {name};
    }
    return true;
  }

  /** `load_contract`; `load` is the YAML library, with None for text that it rejects. */
  function LoadContract(text: string, load: string -> Option<Value>): Option<Value> {
    if '\t' in text then None
    else if load(text).Some? && load(text).value.Mapping? then load(text)
    else None
  }

  /**
   `validate_contract` on the text of a file; `expected.properties` are the entries of `EXPECTED_PROPERTIES`
   for it. It accepts exactly the contracts written without tabs, whatever order it visits them in.
   */
  method ValidateContract(text: string, load: string -> Option<Value>, expected: Expectations) returns (ok: bool)
    ensures ok <==> '\t' !in text && load(text).Some? && ContractOk(load(text).value, expected)
  {
    var loaded := LoadContract(text, load);
    if loaded.None? {
      return false;
    }
    var document := loaded.value;
    if Get(document.fields, "openapi") != Text("3.1.0") {
      return false;
    }
    var info := RequireMapping(Get(document.fields, "info"));
    if info.Some? {
      TruthyMeans(Get(info.value, "title"));
      TruthyMeans(Get(info.value, "version"));
    }
    if info.None? || !Truthy(Get(info.value, "title")) || !Truthy(Get(info.value, "version")) {
      return false;
    }
    var paths := RequireMapping(Get(document.fields, "paths"));
    if paths.None? || paths.value.Keys != expected.paths {
      return false;
    }
    ok := CheckOperations(paths.value);
    if !ok {
      return;
    }
    var components := RequireMapping(Get(document.fields, "components"));
    if components.None? {
      return false;
    }
    var schemas := RequireMapping(Get(components.value, "schemas"));
    if schemas.None? || expected.schemas - schemas.value.Keys != {} {
      return false;
    }
    assert expected.schemas <= schemas.value.Keys by {
      forall k | k in expected.schemas ensures k in schemas.value {
        assert k !in expected.schemas - schemas.value.Keys;
      }
    }
    ok := CheckSchemas(schemas.value);
    if !ok {
      return;
    }
    ok := CheckProperties(schemas.value, expected.properties);
    if !ok {
      return;
    }
    ValidateRefsMeans(document, schemas.value);
    return ValidateRefs(document, schemas.value);
  }

  // ---------------------------------------------------------------------------------------------
  // The rules can always be met
  // ---------------------------------------------------------------------------------------------

  function IdFor(path: Key): string {
    match path
    case Name(text) => "n" + text
    case OtherKey(n) => "o" + SignedDecimal(n)
  }

  lemma IdsDiffer(p: Key, q: Key)
    requires p != q
    ensures IdFor(p) != IdFor(q)
  {
    if p.Name? && q.Name? {
      assert IdFor(p)[1..] == p.text && IdFor(q)[1..] == q.text;
    } else if p.OtherKey? && q.OtherKey? {
      assert IdFor(p)[1..] == SignedDecimal(p.n) && IdFor(q)[1..] == SignedDecimal(q.n);
      if SignedDecimal(p.n) == SignedDecimal(q.n) { SignedDecimalInjective(p.n, q.n); }
    } else {
      assert IdFor(p)[0] != IdFor(q)[0];
    }
  }

  function ResponsesFor(): Value {
    Mapping(map[Name("200") := Null])
  }

  function OperationFor(path: Key): Value {
    Mapping(map[Name("operationId") := Text(IdFor(path)), Name("responses") := ResponsesFor()])
  }

  function ItemFor(path: Key): Value {
    Mapping(map[Name("get") := OperationFor(path)])
  }

  lemma ItemMeets(path: Key, schemas: map<Key, Value>)
    ensures OperationOk(ItemFor(path)) && OperationId(ItemFor(path)) == IdFor(path)
    ensures ValidateRefs(ItemFor(path), schemas)
  {
    assert Get(OperationFor(path).fields, "operationId") == Text(IdFor(path));
    assert ValidateRefs(ResponsesFor(), schemas);
    assert ValidateRefs(OperationFor(path), schemas);
  }

  /** A schema with just the expected properties, about which it says nothing. */
  function SchemaFor(name: Key, properties: map<string, set<Key>>): Value {
    if name.Name? && name.text in properties
    then Mapping(map[Name("properties") := Mapping(map k | k in properties[name.text] :: Null)])
    else Mapping(map[])
  }

  lemma SchemaMeets(name: Key, properties: map<string, set<Key>>, schemas: map<Key, Value>)
    ensures SchemaOk(SchemaFor(name, properties)) && ValidateRefs(SchemaFor(name, properties), schemas)
  {
    if name.Name? && name.text in properties {
      assert ValidateRefs(Mapping(map k | k in properties[name.text] :: Null), schemas);
    }
  }

  function SchemasFor(expected: Expectations): map<Key, Value> {
    var names := expected.schemas + (set n | n in expected.properties :: Name(n));
    map s | s in names :: SchemaFor(s, expected.properties)
  }

  lemma SchemasMeet(expected: Expectations, n: string)
    requires n in expected.properties
    ensures PropertiesOk(SchemasFor(expected), n, expected.properties[n])
  {
    var schema := SchemasFor(expected)[Name(n)];
    assert Section(schema.fields, "properties") == map k | k in expected.properties[n] :: Null;
  }

  function PathsFor(expected: Expectations): map<Key, Value> {
    map p | p in expected.paths :: ItemFor(p)
  }

  function InfoFor(): Value {
    Mapping(map[Name("title") := Text("API"), Name("version") := Text("1")])
  }

  function ComponentsFor(expected: Expectations): Value {
    Mapping(map[Name("schemas") := Mapping(SchemasFor(expected))])
  }

  function ContractFor(expected: Expectations): Value {
    Mapping(map[Name("openapi") := Text("3.1.0"), Name("info") := InfoFor(),
                Name("paths") := Mapping(PathsFor(expected)), Name("components") := ComponentsFor(expected)])
  }

  lemma ContractParts(expected: Expectations)
    ensures var top := ContractFor(expected).fields;
      && Get(top, "openapi") == Text("3.1.0") && Get(top, "info") == InfoFor()
      && Get(top, "paths") == Mapping(PathsFor(expected)) && Get(top, "components") == ComponentsFor(expected)
      && Name("$ref") !in top
      && top.Keys == {Name("openapi"), Name("info"), Name("paths"), Name("components")}
  {
  }

  lemma ContractForValid(expected: Expectations)
    ensures ValidateRefs(ContractFor(expected), SchemasFor(expected))
  {
    var schemas, paths := SchemasFor(expected), PathsFor(expected);
    forall s | s in schemas ensures ValidateRefs(schemas[s], schemas) && schemas[s].Mapping? {
      SchemaMeets(s, expected.properties, schemas);
    }
    forall p | p in paths ensures ValidateRefs(paths[p], schemas) && paths[p].Mapping? {
      ItemMeets(p, schemas);
    }
    assert ValidateRefs(Mapping(schemas), schemas) && ValidateRefs(Mapping(paths), schemas);
    assert ValidateRefs(ComponentsFor(expected), schemas) && ValidateRefs(InfoFor(), schemas);
    ContractParts(expected);
  }

  /** Whatever paths, schemas and properties are expected, some contract is accepted. */
  lemma ExpectationsCanBeMet(expected: Expectations)
    ensures ContractOk(ContractFor(expected), expected)
  {
    var paths := PathsFor(expected);
    ContractParts(expected);
    ContractForValid(expected);
    ValidateRefsMeans(ContractFor(expected), SchemasFor(expected));
    forall p | p in paths ensures OperationOk(paths[p]) && OperationId(paths[p]) == IdFor(p) {
      ItemMeets(p, map[]);
    }
    forall p, q | p in paths && q in paths && p != q ensures OperationId(paths[p]) != OperationId(paths[q]) {
      IdsDiffer(p, q);
    }
    forall s | s in SchemasFor(expected) ensures SchemaOk(SchemasFor(expected)[s]) {
      SchemaMeets(s, expected.properties, map[]);
    }
    forall n | n in expected.properties
      ensures PropertiesOk(SchemasFor(expected), n, expected.properties[n])
    {
      SchemasMeet(expected, n);
    }
  }

  // ---------------------------------------------------------------------------------------------
  // Following references
  // ---------------------------------------------------------------------------------------------

  /** The components of one kind. */
  function Components(document: Value, kind: string): map<Key, Value> {
    if document.Mapping? then Section(Section(document.fields, "components"), kind) else map[]
  }

  function Schemas(document: Value): map<Key, Value> {
    Components(document, "schemas")
  }

  /** The schema a value refers to, if it holds a schema reference. */
  function SchemaReference(value: Value): Option<Key> {
    var reference := ReferenceOf(value);
    if reference.Some? && SCHEMA_PREFIX <= reference.value then Some(Name(reference.value[|SCHEMA_PREFIX|..])) else None
  }

  /** One move of a reader of the document: down to a part, or along a schema reference that is defined. */
  datatype Move = Down(step: Step) | Follow

  predicate CanMove(value: Value, move: Move, schemas: map<Key, Value>) {
    match move
    case Down(step) => At(value, [step]).Some?
    case Follow => SchemaReference(value).Some? && SchemaReference(value).value in schemas
  }

  function MoveTo(value: Value, move: Move, schemas: map<Key, Value>): Value
    requires CanMove(value, move, schemas)
  {
    match move
    case Down(step) => At(value, [step]).value
    case Follow => schemas[SchemaReference(value).value]
  }

  /** Where a sequence of moves leads, if each of them is possible. */
  function Walk(value: Value, moves: seq<Move>, schemas: map<Key, Value>): Option<Value>
    decreases |moves|
  {
    if moves == [] then Some(value)
    else if CanMove(value, moves[0], schemas) then Walk(MoveTo(value, moves[0], schemas), moves[1..], schemas)
    else None
  }

  lemma SchemasAreChecked(document: Value, expected: Expectations, name: Key)
    requires ContractOk(document, expected) && name in Schemas(document)
    ensures ValidateRefs(Schemas(document)[name], Schemas(document)) && Schemas(document)[name].Mapping?
  {
    var schemas := Schemas(document);
    var components := Get(document.fields, "components");
    ValidateRefsMeans(document, schemas);
    assert ValidateRefs(components, schemas);
    assert ValidateRefs(Get(components.fields, "schemas"), schemas);
    assert SchemaOk(schemas[name]);
  }

  lemma {:induction false} WalkStaysValid(document: Value, expected: Expectations, value: Value, moves: seq<Move>)
    requires ContractOk(document, expected) && ValidateRefs(value, Schemas(document))
    requires Walk(value, moves, Schemas(document)).Some?
    ensures ValidateRefs(Walk(value, moves, Schemas(document)).value, Schemas(document))
    decreases |moves|
  {
    if moves != [] {
      match moves[0] {
        case Down(step) =>
          ValidAtPath(value, [step], Schemas(document));
        case Follow =>
          SchemasAreChecked(document, expected, SchemaReference(value).value);
      }
      WalkStaysValid(document, expected, MoveTo(value, moves[0], Schemas(document)), moves[1..]);
    }
  }

  /**
   In an accepted contract, from anywhere in the document and along any chain of parts and schema
   references, however long and through however many cycles, every schema reference met is defined, and it
   leads to a mapping.
   */
  lemma ReferencesNeverDangle(document: Value, expected: Expectations, moves: seq<Move>)
    requires ContractOk(document, expected)
    requires Walk(document, moves, Schemas(document)).Some?
    requires SchemaReference(Walk(document, moves, Schemas(document)).value).Some?
    ensures var name := SchemaReference(Walk(document, moves, Schemas(document)).value).value;
      name in Schemas(document) && Schemas(document)[name].Mapping?
  {
    var value := Walk(document, moves, Schemas(document)).value;
    ValidateRefsMeans(document, Schemas(document));
    WalkStaysValid(document, expected, document, moves);
    assert value.Mapping? && ReferenceAllowed(ReferenceOf(value).value, Schemas(document));
    SchemasAreChecked(document, expected, SchemaReference(value).value);
  }

  // ---------------------------------------------------------------------------------------------
  // References that need not resolve
  // ---------------------------------------------------------------------------------------------

  /** The component a reference names is defined. */
  predicate Resolves(document: Value, reference: string) {
    if SCHEMA_PREFIX <= reference then Name(reference[|SCHEMA_PREFIX|..]) in Schemas(document)
    else if HEADER_PREFIX <= reference then Name(reference[|HEADER_PREFIX|..]) in Components(document, "headers")
    else RESPONSE_PREFIX <= reference && Name(reference[|RESPONSE_PREFIX|..]) in Components(document, "responses")
  }

  /** The reference stands somewhere in a document that is accepted. */
  ghost predicate AcceptedWith(document: Value, expected: Expectations, path: seq<Step>, reference: string) {
    ContractOk(document, expected) && RefersTo(document, path, reference)
  }

  /** The components without those that header and response references name. */
  function SchemasOnly(components: map<Key, Value>): map<Key, Value> {
    components - {Name("headers"), Name("responses")}
  }

  /** The document without header and response components, and with a reference in a place of its own. */
  function WithReference(document: Value, reference: string): Value
    requires document.Mapping?
  {
    Mapping(document.fields[Name("components") := Mapping(SchemasOnly(Section(document.fields, "components")))]
                           [Name("x-reference") := Mapping(map[Name("$ref") := Text(reference)])])
  }

  lemma PartsKept(document: Value, reference: string, name: string)
    requires document.Mapping? && name != "components" && name != "x-reference"
    ensures Get(WithReference(document, reference).fields, name) == Get(document.fields, name)
  {
    assert Name(name) != Name("components") && Name(name) != Name("x-reference");
  }

  lemma SchemasKept(document: Value, reference: string)
    requires document.Mapping?
    ensures Get(WithReference(document, reference).fields, "components")
      == Mapping(SchemasOnly(Section(document.fields, "components")))
    ensures var all := Section(document.fields, "components");
      && Get(SchemasOnly(all), "schemas") == Get(all, "schemas") && Get(SchemasOnly(all), "$ref") == Get(all, "$ref")
    ensures Schemas(WithReference(document, reference)) == Schemas(document)
  {
    assert Name("schemas") !in {Name("headers"), Name("responses")};
    assert Name("$ref") !in {Name("headers"), Name("responses")};
  }

  lemma StillValid(document: Value, reference: string)
    requires document.Mapping? && Get(document.fields, "components").Mapping?
    requires ValidateRefs(document, Schemas(document)) && ReferenceAllowed(reference, Schemas(document))
    ensures ValidateRefs(WithReference(document, reference), Schemas(document))
  {
    var top, top', schemas := document.fields, WithReference(document, reference).fields, Schemas(document);
    PartsKept(document, reference, "$ref");
    SchemasKept(document, reference);
    assert ValidateRefs(Get(top, "components"), schemas);
    assert ValidateRefs(top'[Name("components")], schemas);
    assert ValidateRefs(top'[Name("x-reference")], schemas);
    forall k | k in top' ensures ValidateRefs(top'[k], schemas) {
      assert k != Name("components") && k != Name("x-reference") ==> k in top && top'[k] == top[k];
    }
  }

  lemma StillAccepted(document: Value, expected: Expectations, reference: string)
    requires ContractOk(document, expected) && ReferenceAllowed(reference, Schemas(document))
    ensures ContractOk(WithReference(document, reference), expected)
  {
    PartsKept(document, reference, "openapi");
    PartsKept(document, reference, "info");
    PartsKept(document, reference, "paths");
    SchemasKept(document, reference);
    ValidateRefsMeans(document, Schemas(document));
    StillValid(document, reference);
    ValidateRefsMeans(WithReference(document, reference), Schemas(document));
  }

  lemma ReferenceStands(document: Value, reference: string)
    requires document.Mapping?
    ensures var found := At(WithReference(document, reference), [Field(Name("x-reference"))]);
      found.Some? && ReferenceOf(found.value) == Some(reference)
  {
    assert [Field(Name("x-reference"))][1..] == [];
  }

  /** From any accepted document, one that is still accepted but holds the reference without the component it names. */
  lemma DanglingReferenceAccepted(document: Value, expected: Expectations, reference: string)
    requires ContractOk(document, expected)
    requires !(SCHEMA_PREFIX <= reference) && (HEADER_PREFIX <= reference || RESPONSE_PREFIX <= reference)
    ensures var dangling := WithReference(document, reference);
      AcceptedWith(dangling, expected, [Field(Name("x-reference"))], reference) && !Resolves(dangling, reference)
  {
    StillAccepted(document, expected, reference);
    ReferenceStands(document, reference);
  }

  lemma CheckedReferenceResolves(document: Value, expected: Expectations, path: seq<Step>, reference: string)
    requires AcceptedWith(document, expected, path, reference)
    requires SCHEMA_PREFIX <= reference || !(HEADER_PREFIX <= reference || RESPONSE_PREFIX <= reference)
    ensures Resolves(document, reference)
  {
    ValidateRefsMeans(document, Schemas(document));
    AllowedMeans(reference, Schemas(document));
  }

  /**
   Which references resolve whenever they are accepted, whatever is expected: exactly those the check looks up,
   and those it never accepts. Of header and response references it checks the prefix alone, so each of them
   dangles in some accepted document.
   */
  lemma AcceptedReferencesResolveIff(expected: Expectations, reference: string)
    ensures (forall other, path :: AcceptedWith(other, expected, path, reference) ==> Resolves(other, reference)) <==>
      (SCHEMA_PREFIX <= reference || !(HEADER_PREFIX <= reference || RESPONSE_PREFIX <= reference))
  {
    if !(SCHEMA_PREFIX <= reference) && (HEADER_PREFIX <= reference || RESPONSE_PREFIX <= reference) {
      ExpectationsCanBeMet(expected);
      DanglingReferenceAccepted(ContractFor(expected), expected, reference);
    } else {
      forall other, path | AcceptedWith(other, expected, path, reference) ensures Resolves(other, reference) {
        CheckedReferenceResolves(other, expected, path, reference);
      }
    }
  }

  /** The two prefixes of which the check looks at nothing else are no prefixes of a schema reference. */
  lemma UncheckedPrefixes(name: string)
    ensures HEADER_PREFIX <= HEADER_PREFIX + name && !(SCHEMA_PREFIX <= HEADER_PREFIX + name)
    ensures RESPONSE_PREFIX <= RESPONSE_PREFIX + name && !(SCHEMA_PREFIX <= RESPONSE_PREFIX + name)
  {
    assert (HEADER_PREFIX + name)[..|HEADER_PREFIX|] == HEADER_PREFIX;
    assert (RESPONSE_PREFIX + name)[..|RESPONSE_PREFIX|] == RESPONSE_PREFIX;
    PrefixesExclude(HEADER_PREFIX + name);
    PrefixesExclude(RESPONSE_PREFIX + name);
  }

  /** No header or response reference is safe, whatever component it names. */
  lemma HeaderReferencesUnchecked(expected: Expectations, name: string)
    ensures exists other, path :: AcceptedWith(other, expected, path, HEADER_PREFIX + name)
                                  && !Resolves(other, HEADER_PREFIX + name)
    ensures exists other, path :: AcceptedWith(other, expected, path, RESPONSE_PREFIX + name)
                                  && !Resolves(other, RESPONSE_PREFIX + name)
  {
    UncheckedPrefixes(name);
    ExpectationsCanBeMet(expected);
    DanglingReferenceAccepted(ContractFor(expected), expected, HEADER_PREFIX + name);
    DanglingReferenceAccepted(ContractFor(expected), expected, RESPONSE_PREFIX + name);
  }
}
