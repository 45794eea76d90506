/** The optional models for raw data loaded into the document store
    (models.py): a name -> value registry with duplicate and missing-name
    errors, and dictionaries whose declared keys are coerced by converters
    when a model is constructed. */
module Models {
  import opened Wrappers

  // ---------------------------------------------------------------------
  // Registry
  // ---------------------------------------------------------------------

  /** The two exceptions a registry raises (models.py:5-10). */
  datatype RegistryError = AlreadyRegistered(name: string) | NotRegistered(name: string)

  /** The table after `register(name, value)`, or the error it raises. */
  function WithRegistered<V>(m: map<string, V>, name: string, value: V): (r: Result<map<string, V>, RegistryError>)
    ensures r.Failure? <==> name in m
    ensures r.Failure? ==> r.error == AlreadyRegistered(name)
    ensures r.Success? ==> r.value.Keys == m.Keys + {name} && r.value[name] == value
    ensures r.Success? ==> forall k :: k in m ==> r.value[k] == m[k]
  {
    if name in m then Failure(AlreadyRegistered(name)) else Success(m[name := value])
  }

  /** The table after `unregister(name)` paired with the value it returns,
      or the error it raises. */
  function WithoutRegistered<V>(m: map<string, V>, name: string): (r: Result<(map<string, V>, V), RegistryError>)
    ensures r.Failure? <==> name !in m
    ensures r.Failure? ==> r.error == NotRegistered(name)
    ensures r.Success? ==> r.value.1 == m[name] && r.value.0.Keys == m.Keys - {name}
    ensures r.Success? ==> forall k :: k in r.value.0 ==> r.value.0[k] == m[k]
  {
    if name !in m then Failure(NotRegistered(name)) else Success((m - {name}, m[name]))
  }

  /** `get(key, default)`: the registered value, or the default. */
  function Lookup<V>(m: map<string, V>, key: string, default: Option<V>): (r: Option<V>)
    ensures key in m ==> r == Some(m[key])
    ensures key !in m ==> r == default
  {
    if key in m then Some(m[key]) else default
  }

  /** After registering a fresh name, `get` finds the value under it and
      answers for every other key as before. */
  lemma LookupAfterRegister<V>(m: map<string, V>, name: string, value: V, key: string, default: Option<V>)
    requires name !in m
    ensures WithRegistered(m, name, value).Success?
    ensures Lookup(WithRegistered(m, name, value).value, key, default)
         == if key == name then Some(value) else Lookup(m, key, default)
  {
  }

  /** After unregistering a name, `get` answers the default for it and as
      before for every other key. */
  lemma LookupAfterUnregister<V>(m: map<string, V>, name: string, key: string, default: Option<V>)
    requires name in m
    ensures WithoutRegistered(m, name).Success?
    ensures Lookup(WithoutRegistered(m, name).value.0, key, default)
         == if key == name then default else Lookup(m, key, default)
  {
  }

  /** Unregistering a freshly registered name gives back the value and the
      table as it was. */
  lemma RegisterThenUnregister<V>(m: map<string, V>, name: string, value: V)
    requires name !in m
    ensures WithRegistered(m, name, value).Success?
    ensures WithoutRegistered(WithRegistered(m, name, value).value, name) == Success((m, value))
  {
    var added := WithRegistered(m, name, value).value;
    assert added - {name} == m;
  }

  /** Registering again the value that `unregister` returned restores the
      table. */
  lemma UnregisterThenRegister<V>(m: map<string, V>, name: string)
    requires name in m
    ensures WithoutRegistered(m, name).Success?
    ensures var (rest, value) := WithoutRegistered(m, name).value;
            WithRegistered(rest, name, value) == Success(m)
  {
    var (rest, value) := WithoutRegistered(m, name).value;
    assert rest[name := value] == m;
  }

  /** Register adds exactly one entry and unregister removes exactly one. */
  lemma RegistrySizes<V>(m: map<string, V>, name: string, value: V)
    ensures name !in m ==> |WithRegistered(m, name, value).value| == |m| + 1
    ensures name in m ==> |WithoutRegistered(m, name).value.0| == |m| - 1
  {
  }

  /** `Registry` (models.py:13-33): the dictionary `_registry`, updated in
      place by register and unregister. */
  class Registry<V(==)> {
    var entries: map<string, V>

    constructor ()
      ensures entries == map[]
    {
      entries := map[];
    }

    method Register(name: string, value: V) returns (r: Result<(), RegistryError>)
      modifies this
      ensures var after := WithRegistered(old(entries), name, value);
              if after.Success? then r.Success? && entries == after.value
              else r == Failure(after.error) && entries == old(entries)
    {
      if name in entries {
        return Failure(AlreadyRegistered(name));
      }
      entries := entries[name := value];
      return Success(());
    }

    method Unregister(name: string) returns (r: Result<V, RegistryError>)
      modifies this
      ensures var after := WithoutRegistered(old(entries), name);
              if after.Success? then r == Success(after.value.1) && entries == after.value.0
              else r == Failure(after.error) && entries == old(entries)
    {
      if name !in entries {
        return Failure(NotRegistered(name));
      }
      var value := entries[name];
      entries := entries - {name};
      return Success(value);
    }

    /** `items()`: every (name, value) pair of the table, each once. */
    function Items(): (r: set<(string, V)>)
      reads this
      ensures forall k :: k in entries ==> (k, entries[k]) in r
      ensures forall p :: p in r ==> p.0 in entries && entries[p.0] == p.1
      ensures |r| == |entries|
    {
      var pairs := set k | k in entries :: (k, entries[k]);
      PairsOfMapSize(entries, pairs);
      pairs
    }

    /** `get(key, default=None)`. Reading never changes the table. */
    function Get(key: string, default: Option<V> := None): (r: Option<V>)
      reads this
      ensures key in entries ==> r == Some(entries[key])
      ensures key !in entries ==> r == default
    {
      Lookup(entries, key, default)
    }
  }

  /** The set of pairs of a map has as many elements as the map has keys. */
  lemma {:induction false} PairsOfMapSize<V>(m: map<string, V>, pairs: set<(string, V)>)
    requires pairs == set k | k in m :: (k, m[k])
    ensures |pairs| == |m|
    decreases |m|
  {
    if |m| > 0 {
      var k :| k in m;
      var rest := m - {k};
      var restPairs := set j | j in rest :: (j, rest[j]);
      PairsOfMapSize(rest, restPairs);
      forall p | p in pairs ensures p in restPairs + {(k, m[k])} {
        var j :| j in m && p == (j, m[j]);
        if j != k { assert j in rest; }
      }
      forall p | p in restPairs + {(k, m[k])} ensures p in pairs {
        if p != (k, m[k]) {
          var j :| j in rest && p == (j, rest[j]);
          assert j in m;
        }
      }
      assert pairs == restPairs + {(k, m[k])};
      assert (k, m[k]) !in restPairs;
      assert |m| == |rest| + 1 by { assert m.Keys == rest.Keys + {k}; }
    } else {
      assert m.Keys == {};
      assert pairs == {};
    }
  }

  // ---------------------------------------------------------------------
  // Coerced models
  // ---------------------------------------------------------------------

  /** The converters a `_types` table names: `unicode` and `float`. What
      they do to a value is left abstract: every coercion below takes a
      `convert` function that interprets them. */
  datatype Converter = Unicode | Float

  /** What a converter raises: a `ValueError` (which `coerce` catches) or
      any other exception (which it lets through). */
  datatype ConversionError = ValueError(message: string) | OtherError(kind: string, message: string)

  /** What coercion raises: `BadValueError` (models.py:37, a subclass of
      `ValueError`) naming the attribute, its value and the converter's
      message, or an exception that is not a `ValueError`, unchanged. */
  datatype CoerceError<V> = BadValueError(key: string, value: V, reason: string) | Raised(error: ConversionError)

  /** Whether `except ValueError` catches the error. */
  predicate IsValueError<V>(e: CoerceError<V>)
  {
    e.BadValueError? || e.error.ValueError?
  }

  /** The exception `coerce` raises when converting `value` under `key`
      fails with `e` (models.py:52-56). */
  function Reported<V>(key: string, value: V, e: ConversionError): (r: CoerceError<V>)
    ensures IsValueError(r) <==> e.ValueError?
    ensures e.ValueError? ==> r == BadValueError(key, value, e.message)
    ensures !e.ValueError? ==> r == Raised(e)
  {
    if e.ValueError? then BadValueError(key, value, e.message) else Raised(e)
  }

  /** Every declared key present in `values` converts. */
  predicate Convertible<V>(types: map<string, Converter>, values: map<string, V>,
                           convert: (Converter, V) -> Result<V, ConversionError>)
  {
    forall k :: k in values && k in types ==> convert(types[k], values[k]).Success?
  }

  /** The dictionary `coerce` returns when nothing fails: the same keys,
      each declared key holding its converted value and every other key its
      original one. */
  function Coerced<V>(types: map<string, Converter>, values: map<string, V>,
                      convert: (Converter, V) -> Result<V, ConversionError>): (r: map<string, V>)
    requires Convertible(types, values, convert)
    ensures r.Keys == values.Keys
    ensures forall k :: k in values && k !in types ==> r[k] == values[k]
    ensures forall k :: k in values && k in types ==> convert(types[k], values[k]) == Success(r[k])
  {
    map k | k in values :: if k in types then convert(types[k], values[k]).value else values[k]
  }

  /** The exceptions `coerce` may raise: one per declared key whose
      conversion fails; dictionary order decides which one is met first. */
  function PossibleErrors<V(==)>(types: map<string, Converter>, values: map<string, V>,
                             convert: (Converter, V) -> Result<V, ConversionError>): set<CoerceError<V>>
  {
    set k | k in values && k in types && convert(types[k], values[k]).Failure?
      :: Reported(k, values[k], convert(types[k], values[k]).error)
  }

  /** Coercion fails exactly when some exception is possible. */
  lemma CoercionFailsIffSomeError<V>(types: map<string, Converter>, values: map<string, V>,
                                     convert: (Converter, V) -> Result<V, ConversionError>)
    ensures Convertible(types, values, convert) <==> PossibleErrors(types, values, convert) == {}
  {
    if !Convertible(types, values, convert) {
      var k :| k in values && k in types && convert(types[k], values[k]).Failure?;
      assert Reported(k, values[k], convert(types[k], values[k]).error) in PossibleErrors(types, values, convert);
    }
  }

  /** When converters only raise `ValueError`, every failure of `coerce` is
      a `BadValueError` for a declared key, and so a `ValueError`. */
  lemma FailuresAreBadValues<V>(types: map<string, Converter>, values: map<string, V>,
                                convert: (Converter, V) -> Result<V, ConversionError>, e: CoerceError<V>)
    requires forall c, v :: convert(c, v).Failure? ==> convert(c, v).error.ValueError?
    requires e in PossibleErrors(types, values, convert)
    ensures e.BadValueError? && IsValueError(e)
    ensures e.key in values && e.key in types && e.value == values[e.key]
  {
  }

  /** Keys with no converter pass through: a table that declares none of
      the keys leaves the dictionary as it is. */
  lemma UntypedPassThrough<V>(types: map<string, Converter>, values: map<string, V>,
                              convert: (Converter, V) -> Result<V, ConversionError>)
    requires types.Keys !! values.Keys
    ensures Convertible(types, values, convert)
    ensures Coerced(types, values, convert) == values
  {
  }

  /** When converting an already converted value gives it back (as
      `float(45.0)` and `unicode(u"x")` do), coercing a coerced dictionary
      changes nothing: a model built from a model's contents equals it. */
  lemma {:induction false} CoerceIdempotent<V>(types: map<string, Converter>, values: map<string, V>,
                                               convert: (Converter, V) -> Result<V, ConversionError>)
    requires Convertible(types, values, convert)
    requires forall c, v :: convert(c, v).Success? ==> convert(c, convert(c, v).value) == convert(c, v)
    ensures Convertible(types, Coerced(types, values, convert), convert)
    ensures Coerced(types, Coerced(types, values, convert), convert) == Coerced(types, values, convert)
  {
  }

  /** A `CoercedModel` subclass: its name and its `_types` table. */
  datatype ModelClass = ModelClass(name: string, types: map<string, Converter>)

  /** `CoercedModel` (models.py:41-58): a dictionary whose contents are set
      once, when the model is constructed. */
  class CoercedModel<V(==)> {
    const types: map<string, Converter>
    var fields: map<string, V>

    /** `dict.__init__()`: an empty dictionary of the given class. */
    constructor (types: map<string, Converter>)
      ensures this.types == types && fields == map[]
    {
      this.types := types;
      fields := map[];
    }

    /** `coerce(values)`: visits the keys in an unspecified order, replacing
        each declared key's value by its conversion and stopping at the
        first conversion that raises. */
    method Coerce(values: map<string, V>, convert: (Converter, V) -> Result<V, ConversionError>)
      returns (r: Result<map<string, V>, CoerceError<V>>)
      ensures r.Success? <==> Convertible(types, values, convert)
      ensures r.Success? ==> r.value == Coerced(types, values, convert)
      ensures r.Failure? ==> r.error in PossibleErrors(types, values, convert)
    {
      var current := values;
      var pending := values.Keys;
      while pending != {}
        invariant pending <= values.Keys && current.Keys == values.Keys
        invariant forall k :: k in pending ==> current[k] == values[k]
        invariant forall k :: k in values && k !in pending && k !in types ==> current[k] == values[k]
        invariant forall k :: k in values && k !in pending && k in types ==>
                    convert(types[k], values[k]) == Success(current[k])
        decreases pending
      {
        var key :| key in pending;
        var value := current[key];
        if key in types {
          var converted := convert(types[key], value);
          if converted.Failure? {
            return Failure(Reported(key, value, converted.error));
          }
          current := current[key := converted.value];
        }
        pending := pending - {key};
      }
      return Success(current);
    }
  }

  /** Calling a model class with keyword arguments (models.py:42-44): an
      empty dictionary, updated with the coerced arguments; a failed
      coercion aborts the construction. */
  method Instantiate<V(==)>(cls: ModelClass, kwargs: map<string, V>, convert: (Converter, V) -> Result<V, ConversionError>)
    returns (r: Result<CoercedModel<V>, CoerceError<V>>)
    ensures r.Success? <==> Convertible(cls.types, kwargs, convert)
    ensures r.Success? ==> fresh(r.value) && r.value.types == cls.types
                           && r.value.fields == Coerced(cls.types, kwargs, convert)
    ensures r.Failure? ==> r.error in PossibleErrors(cls.types, kwargs, convert)
  {
    var model := new CoercedModel(cls.types);
    var coerced := model.Coerce(kwargs, convert);
    if coerced.Failure? {
      return Failure(coerced.error);
    }
    model.fields := model.fields + coerced.value;
    return Success(model);
  }

  // ---------------------------------------------------------------------
  // The two concrete models and their registration
  // ---------------------------------------------------------------------

  const SpecimenTypes: map<string, Converter> := map[
    "genus" := Unicode,
    "species" := Unicode,
    "latitude" := Float,
    "longitude" := Float,
    "year" := Unicode,
    "month" := Unicode,
    "day" := Unicode,
    "collector" := Unicode,
    "collection" := Unicode
  ]

  const SimilarSpeciesTypes: map<string, Converter> := map[
    "species" := Unicode,
    "similar_species" := Unicode
  ]

  const Specimen := ModelClass("Specimen", SpecimenTypes)
  const SimilarSpecies := ModelClass("SimilarSpecies", SimilarSpeciesTypes)

  /** The module-level `registry` after models.py is loaded: both models
      register without a name clash. */
  method LoadRegistry() returns (registry: Registry<ModelClass>)
    ensures fresh(registry)
    ensures registry.entries == map["Specimen" := Specimen, "SimilarSpecies" := SimilarSpecies]
  {
    registry := new Registry();
    var first := registry.Register("Specimen", Specimen);
    var second := registry.Register("SimilarSpecies", SimilarSpecies);
  }

  /** Values as they arrive from a request or a parsed file: text or a
      number. */
  datatype RawValue = Text(text: string) | Number(number: real)

  /** The record of the module's doctest. */
  const SampleRecord: map<string, RawValue> := map[
    "genus" := Text("Autographa"),
    "species" := Text("ampla"),
    "latitude" := Text("45.0"),
    "longitude" := Number(112.0)
  ]

  /** The doctest (tests.py:10-13): with `float("45.0") == 45.0`, a
      specimen built from text gets the number 45.0 as its latitude and
      keeps the other values. */
  lemma SpecimenCoercesLatitude(convert: (Converter, RawValue) -> Result<RawValue, ConversionError>)
    requires forall s :: convert(Unicode, Text(s)) == Success(Text(s))
    requires convert(Float, Text("45.0")) == Success(Number(45.0))
    requires convert(Float, Number(112.0)) == Success(Number(112.0))
    ensures Convertible(SpecimenTypes, SampleRecord, convert)
    ensures Coerced(SpecimenTypes, SampleRecord, convert)
         == SampleRecord["latitude" := Number(45.0)]
  {
  }

  /** The doctest (tests.py:14-20): when `float("abc")` raises
      `ValueError`, building the specimen raises a `ValueError`, and the
      one it can raise names the latitude. */
  lemma SpecimenRejectsBadLatitude(convert: (Converter, RawValue) -> Result<RawValue, ConversionError>)
    requires forall s :: convert(Unicode, Text(s)) == Success(Text(s))
    requires convert(Float, Text("abc")).Failure? && convert(Float, Text("abc")).error.ValueError?
    requires convert(Float, Number(112.0)) == Success(Number(112.0))
    ensures !Convertible(SpecimenTypes, SampleRecord["latitude" := Text("abc")], convert)
    ensures PossibleErrors(SpecimenTypes, SampleRecord["latitude" := Text("abc")], convert)
         == {BadValueError("latitude", Text("abc"), convert(Float, Text("abc")).error.message)}
  {
    var bad := SampleRecord["latitude" := Text("abc")];
    var errs := PossibleErrors(SpecimenTypes, bad, convert);
    var e := BadValueError("latitude", Text("abc"), convert(Float, Text("abc")).error.message);
    assert "latitude" in bad && "latitude" in SpecimenTypes && bad["latitude"] == Text("abc");
    assert Reported("latitude", bad["latitude"], convert(SpecimenTypes["latitude"], bad["latitude"]).error) == e;
    assert e in errs;
    forall x | x in errs ensures x == e {
      var k :| k in bad && k in SpecimenTypes && convert(SpecimenTypes[k], bad[k]).Failure?
               && x == Reported(k, bad[k], convert(SpecimenTypes[k], bad[k]).error);
      assert k in bad.Keys;
      assert bad.Keys == {"genus", "species", "latitude", "longitude"};
    }
  }
}
