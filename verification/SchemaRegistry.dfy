/** Named schemas, found by object identity or, when unambiguous, by structure. */
module SchemaRegistry {
  import opened Wrappers
  import opened StableJson

  /** A schema object: its identity and its JSON value. */
  datatype Schema = Schema(id: nat, json: Json)

  datatype Registration = Registration(name: string, schema: Schema)

  /** `JSON.stringify` gives different texts for different values. */
  ghost predicate Injective(stringify: Json -> string) {
    forall a, b :: stringify(a) == stringify(b) ==> a == b
  }

  /** `schemaSignature` */
  function Signature(less: Order, stringify: Json -> string, v: Json): string {
    stringify(Stable(less, v))
  }

  datatype Registry = Registry(byObject: map<nat, string>, bySignature: map<string, string>, duplicates: set<string>)

  const Empty := Registry(map[], map[], {})

  /** `registerNamedSchema` */
  function Register(less: Order, stringify: Json -> string, r: Registry, name: string, s: Schema): Registry {
    var sig := Signature(less, stringify, s.json);
    var r := r.(byObject := r.byObject[s.id := name]);
    if sig in r.duplicates then r
    else if sig in r.bySignature then r.(bySignature := r.bySignature - {sig}, duplicates := r.duplicates + {sig})
    else r.(bySignature := r.bySignature[sig := name])
  }

  /** `namedSchema` */
  function Named(less: Order, stringify: Json -> string, r: Registry, s: Schema,
                 allowStructural: bool): Option<string> {
    if s.id in r.byObject then Some(r.byObject[s.id])
    else if allowStructural && Signature(less, stringify, s.json) in r.bySignature then
      Some(r.bySignature[Signature(less, stringify, s.json)])
    else None
  }

  function After(less: Order, stringify: Json -> string, log: seq<Registration>): Registry {
    if log == [] then Empty
    else
      var last := log[|log| - 1];
      Register(less, stringify, After(less, stringify, log[..|log| - 1]), last.name, last.schema)
  }

  /** The module-level maps; `log` is the history that explains them. */
  class SchemaNames {
    const less: Order
    const stringify: Json -> string
    var schemaNameByObject: map<nat, string>
    var schemaNameBySignature: map<string, string>
    var duplicateSchemaSignatures: set<string>
    ghost var log: seq<Registration>

    ghost predicate Valid()
      reads this
    {
      Registry(schemaNameByObject, schemaNameBySignature, duplicateSchemaSignatures) == After(less, stringify, log)
    }

    constructor (less: Order, stringify: Json -> string)
      ensures Valid() && log == [] && this.less == less && this.stringify == stringify
    {
      this.less, this.stringify := less, stringify;
      schemaNameByObject, schemaNameBySignature, duplicateSchemaSignatures := map[], map[], {};
      log := [];
    }

    method RegisterNamedSchema(name: string, s: Schema)
      requires Valid()
      modifies this
      ensures Valid() && log == old(log) + [Registration(name, s)]
    {
      schemaNameByObject := schemaNameByObject[s.id := name];
      var signature := Signature(less, stringify, s.json);
      log := log + [Registration(name, s)];
      assert log[..|log| - 1] == old(log);
      if signature in duplicateSchemaSignatures {
        return;
      }
      if signature in schemaNameBySignature {
        schemaNameBySignature := schemaNameBySignature - {signature};
        duplicateSchemaSignatures := duplicateSchemaSignatures + {signature};
        return;
      }
      schemaNameBySignature := schemaNameBySignature[signature := name];
    }

    method NamedSchema(s: Schema, allowStructuralFallback: bool) returns (name: Option<string>)
      requires Valid()
      ensures name == Named(less, stringify, After(less, stringify, log), s, allowStructuralFallback)
    {
      if s.id in schemaNameByObject {
        return Some(schemaNameByObject[s.id]);
      }
      var signature := Signature(less, stringify, s.json);
      if allowStructuralFallback && signature in schemaNameBySignature {
        return Some(schemaNameBySignature[signature]);
      }
      return None;
    }
  }

  // ---------- what the maps mean ----------

  /** How many registrations carry a signature. */
  function Count(less: Order, stringify: Json -> string, log: seq<Registration>, sig: string): nat {
    if log == [] then 0
    else
      Count(less, stringify, log[..|log| - 1], sig)
      + if Signature(less, stringify, log[|log| - 1].schema.json) == sig then 1 else 0
  }

  /** The latest name registered under a signature. */
  function LastName(less: Order, stringify: Json -> string, log: seq<Registration>, sig: string): string {
    if log == [] then ""
    else if Signature(less, stringify, log[|log| - 1].schema.json) == sig then log[|log| - 1].name
    else LastName(less, stringify, log[..|log| - 1], sig)
  }

  /** A signature maps to a name iff exactly one registration carries it, and is a duplicate iff several do. */
  lemma {:induction false} RegistryIsExact(less: Order, stringify: Json -> string, log: seq<Registration>, sig: string)
    ensures var r, n := After(less, stringify, log), Count(less, stringify, log, sig);
            && (sig in r.bySignature <==> n == 1)
            && (sig in r.bySignature ==> r.bySignature[sig] == LastName(less, stringify, log, sig))
            && (sig in r.duplicates <==> n >= 2)
  {
    if log != [] {
      RegistryIsExact(less, stringify, log[..|log| - 1], sig);
    }
  }

  /** An object is known by the last name it was registered under. */
  lemma {:induction false} ObjectsAreExact(less: Order, stringify: Json -> string, log: seq<Registration>, id: nat)
    ensures id in After(less, stringify, log).byObject <==> exists i :: 0 <= i < |log| && log[i].schema.id == id
    ensures id in After(less, stringify, log).byObject ==>
              exists i :: 0 <= i < |log| && log[i].schema.id == id
                          && After(less, stringify, log).byObject[id] == log[i].name
                          && forall j :: i < j < |log| ==> log[j].schema.id != id
  {
    if log != [] {
      var n := |log| - 1;
      ObjectsAreExact(less, stringify, log[..n], id);
      assert forall i :: 0 <= i < n ==> log[..n][i] == log[i];
      if log[n].schema.id == id {
        assert After(less, stringify, log).byObject[id] == log[n].name;
      } else if id in After(less, stringify, log).byObject {
        var i :|
          && 0 <= i < n && log[..n][i].schema.id == id
          && After(less, stringify, log[..n]).byObject[id] == log[..n][i].name
          && forall j :: i < j < n ==> log[..n][j].schema.id != id;
        assert log[i] == log[..n][i];
        assert forall j :: i < j < |log| ==> log[j].schema.id != id;
      }
    }
  }

  /** How many registered schemas equal `v` up to the order of keys. */
  ghost function CountSame(log: seq<Registration>, v: Json): nat {
    if log == [] then 0 else CountSame(log[..|log| - 1], v) + if Same(log[|log| - 1].schema.json, v) then 1 else 0
  }

  lemma {:induction false} CountsAgree(less: Order, stringify: Json -> string, log: seq<Registration>, v: Json)
    requires TotalOrder(less) && Injective(stringify) && Valid(v)
    requires forall i :: 0 <= i < |log| ==> Valid(log[i].schema.json)
    ensures Count(less, stringify, log, Signature(less, stringify, v)) == CountSame(log, v)
  {
    if log != [] {
      var n := |log| - 1;
      assert forall i :: 0 <= i < n ==> log[..n][i] == log[i];
      CountsAgree(less, stringify, log[..n], v);
      StableIsExact(less, log[n].schema.json, v);
    }
  }

  lemma {:induction false} NoneSame(log: seq<Registration>, v: Json, j: nat)
    requires CountSame(log, v) == 0 && j < |log|
    ensures !Same(log[j].schema.json, v)
  {
    var n := |log| - 1;
    if j < n {
      NoneSame(log[..n], v, j);
    }
  }

  /** Registration `i` is the only one whose schema equals `v` up to the order of keys. */
  ghost predicate Only(log: seq<Registration>, v: Json, i: nat) {
    && i < |log| && Same(log[i].schema.json, v)
    && forall j :: 0 <= j < |log| && j != i ==> !Same(log[j].schema.json, v)
  }

  lemma {:induction false} OnlyOne(less: Order, stringify: Json -> string, log: seq<Registration>, v: Json)
    returns (i: nat)
    requires TotalOrder(less) && Injective(stringify) && Valid(v)
    requires forall i :: 0 <= i < |log| ==> Valid(log[i].schema.json)
    requires CountSame(log, v) == 1
    ensures Only(log, v, i) && LastName(less, stringify, log, Signature(less, stringify, v)) == log[i].name
  {
    var n := |log| - 1;
    assert forall j :: 0 <= j < n ==> log[..n][j] == log[j];
    StableIsExact(less, log[n].schema.json, v);
    if Same(log[n].schema.json, v) {
      i := n;
      forall j | 0 <= j < n ensures !Same(log[j].schema.json, v) {
        NoneSame(log[..n], v, j);
      }
    } else {
      i := OnlyOne(less, stringify, log[..n], v);
    }
  }

  /** Structural lookup of an unregistered object succeeds iff exactly one registered schema has its structure,
      and gives the name that one was registered under. */
  lemma StructuralLookup(less: Order, stringify: Json -> string, log: seq<Registration>, s: Schema)
    requires TotalOrder(less) && Injective(stringify) && Valid(s.json)
    requires forall i :: 0 <= i < |log| ==> Valid(log[i].schema.json) && log[i].schema.id != s.id
    ensures Named(less, stringify, After(less, stringify, log), s, true).Some? <==> CountSame(log, s.json) == 1
    ensures Named(less, stringify, After(less, stringify, log), s, true).Some? ==>
              exists i: nat :: Only(log, s.json, i)
                               && Named(less, stringify, After(less, stringify, log), s, true) == Some(log[i].name)
    ensures Named(less, stringify, After(less, stringify, log), s, false).None?
  {
    ObjectsAreExact(less, stringify, log, s.id);
    RegistryIsExact(less, stringify, log, Signature(less, stringify, s.json));
    CountsAgree(less, stringify, log, s.json);
    if CountSame(log, s.json) == 1 {
      var i := OnlyOne(less, stringify, log, s.json);
    }
  }
}
