/**
 * Element construction: `jsx`, `jsxDEV`, `createElement` and
 * `isValidElement`. An element is a plain object whose `$$typeof` is the
 * element symbol. Only plain-object configs are enumerated: a config of any
 * other kind contributes no props.
 */
module Jsx {
  import opened Wrappers
  import opened JsValues

  /**
   * The element and fragment symbols, `Symbol.for("react.element")` and
   * `Symbol.for("react.fragment")`: two distinct entries of the symbol registry.
   */
  const REACT_ELEMENT_TYPE: Value := Sym(0)
  const REACT_FRAGMENT_TYPE: Value := Sym(1)

  const RESERVED_PROPS: set<string> := {"key", "ref", "__self", "__source"}

  /** `ReactElement(type, key, ref, props)` */
  function ReactElement(etype: Value, key: Value, ref: Value, props: map<string, Value>): (e: Value)
    ensures IsValidElement(e)
    ensures Get(e, "type") == etype && Get(e, "key") == key && Get(e, "ref") == ref
    ensures Get(e, "props") == Rec(props)
  {
    Rec(map["$$typeof" := REACT_ELEMENT_TYPE, "type" := etype, "key" := key, "ref" := ref,
            "props" := Rec(props), "__mark" := Str("lq")])
  }

  /** `isObject(obj) && obj.$$typeof === REACT_ELEMENT_TYPE` */
  predicate IsValidElement(v: Value)
  {
    IsObject(v) && Get(v, "$$typeof") == REACT_ELEMENT_TYPE
  }

  /** The config's own enumerable properties that are not reserved. */
  function PropsOf(config: Value): (props: map<string, Value>)
    ensures forall p :: p in props <==> HasOwn(config, p) && p !in RESERVED_PROPS
    ensures forall p :: p in props ==> props[p] == Get(config, p)
  {
    if config.Rec? then map p | p in config.fields && p !in RESERVED_PROPS :: config.fields[p] else map[]
  }

  /** `"" + v` as a key value. */
  function KeyString(v: Value): Result<Value>
  {
    match ToJsString(v)
    case Ok(s) => Ok(Str(s))
    case Throw(m) => Throw(m)
  }

  /**
   * `jsx(type, config = {}, maybeKey)`. A null config throws when its
   * `key` is read; an omitted one is `{}`.
   */
  function JsxElement(etype: Value, config: Value, maybeKey: Value): (r: Result<Value>)
    ensures config.Null? ==> r.Throw?
    ensures r.Ok? ==> IsValidElement(r.value)
    ensures r.Ok? ==> Get(r.value, "props") == Rec(PropsOf(config)) && Get(r.value, "type") == etype
    ensures r.Ok? && Get(config, "key").Undefined? && maybeKey.Undefined? ==> Get(r.value, "key") == Null
    ensures r.Ok? && !Get(config, "key").Undefined? ==> KeyString(Get(config, "key")) == Ok(Get(r.value, "key"))
    ensures r.Ok? && Get(config, "key").Undefined? && !maybeKey.Undefined? ==> KeyString(maybeKey) == Ok(Get(r.value, "key"))
    ensures r.Ok? ==> Get(r.value, "ref") == (if Get(config, "ref").Undefined? then Null else Get(config, "ref"))
  {
    var config := if config.Undefined? then Rec(map[]) else config;
    if config.Null? then Throw("Cannot read properties of null (reading 'key')")
    else
      var key1 := if maybeKey.Undefined? then Ok(Null) else KeyString(maybeKey);
      if key1.Throw? then key1
      else
        var key := if !Get(config, "key").Undefined? then KeyString(Get(config, "key")) else key1;
        if key.Throw? then key
        else
          var ref := if !Get(config, "ref").Undefined? then Get(config, "ref") else Null;
          Ok(ReactElement(etype, key.value, ref, PropsOf(config)))
  }

  /** `jsxDEV` has the same body as `jsx`. */
  function JsxDevElement(etype: Value, config: Value, maybeKey: Value): (r: Result<Value>)
    ensures r == JsxElement(etype, config, maybeKey)
  {
    JsxElement(etype, config, maybeKey)
  }

  /** The props of `createElement`, before `children` is merged in. */
  function ConfigProps(config: Value): map<string, Value>
  {
    if Nullish(config) then map[] else PropsOf(config)
  }

  /** `createElement(type, config = {}, ...children)` */
  function CreateElement(etype: Value, config: Value, children: seq<Value>): (r: Result<Value>)
    ensures r.Ok? ==> IsValidElement(r.value) && Get(r.value, "type") == etype
    ensures Nullish(config) ==> r.Ok? && Get(r.value, "key") == Null && Get(r.value, "ref") == Null
    ensures r.Ok? && !Nullish(config) && Get(config, "key").Undefined? ==> Get(r.value, "key") == Null
    ensures r.Ok? && !Nullish(config) && !Get(config, "key").Undefined? ==> KeyString(Get(config, "key")) == Ok(Get(r.value, "key"))
    ensures r.Ok? && |children| == 0 ==> Get(r.value, "props") == Rec(ConfigProps(config))
    ensures r.Ok? && |children| == 1 ==> Get(r.value, "props") == Rec(ConfigProps(config)["children" := children[0]])
    ensures r.Ok? && |children| > 1 ==> Get(r.value, "props") == Rec(ConfigProps(config)["children" := Arr(children)])
  {
    var key := if !Nullish(config) && !Get(config, "key").Undefined? then KeyString(Get(config, "key")) else Ok(Null);
    if key.Throw? then key
    else
      var ref := if !Nullish(config) && !Get(config, "ref").Undefined? then Get(config, "ref") else Null;
      var props := ConfigProps(config);
      var props := if |children| == 1 then props["children" := children[0]]
                   else if |children| > 1 then props["children" := Arr(children)]
                   else props;
      Ok(ReactElement(etype, key.value, ref, props))
  }

  /** A value that is not an object, or an object without the element symbol, is not an element. */
  lemma IsValidElementExactly(v: Value)
    ensures IsValidElement(v) <==> v.Rec? && "$$typeof" in v.fields && v.fields["$$typeof"] == REACT_ELEMENT_TYPE
    ensures !IsValidElement(Null) && !IsValidElement(Str("div"))
  {
  }

  // ------------------------------------------- cases from the element tests

  const Component: Value := Func(0)

  lemma CreateElementWithoutConfig()
    ensures CreateElement(Str("div"), Undefined, [])
      == Ok(ReactElement(Str("div"), Null, Null, map[]))
  {
  }

  lemma CreateElementExtractsKeyAndRef()
    ensures CreateElement(Component, Rec(map["key" := Str("12"), "ref" := Str("34"), "foo" := Str("56")]), [])
      == Ok(ReactElement(Component, Str("12"), Str("34"), map["foo" := Str("56")]))
  {
    var config := map["key" := Str("12"), "ref" := Str("34"), "foo" := Str("56")];
    assert PropsOf(Rec(config)) == map["foo" := Str("56")];
  }

  /** A null key becomes the string "null". */
  lemma CreateElementNullKey()
    ensures CreateElement(Component, Rec(map["key" := Null, "ref" := Null, "foo" := Str("12")]), [])
      == Ok(ReactElement(Component, Str("null"), Null, map["foo" := Str("12")]))
  {
    var c1 := map["key" := Null, "ref" := Null, "foo" := Str("12")];
    assert PropsOf(Rec(c1)) == map["foo" := Str("12")];
  }

  /** A number key becomes its decimal text. */
  lemma CreateElementNumberKey()
    ensures CreateElement(Component, Rec(map["key" := Num(12), "foo" := Str("56")]), [])
      == Ok(ReactElement(Component, Str("12"), Null, map["foo" := Str("56")]))
  {
    var c2 := map["key" := Num(12), "foo" := Str("56")];
    assert PropsOf(Rec(c2)) == map["foo" := Str("56")];
    assert DigitChar(1) == '1' && DigitChar(2) == '2';
    assert NatToString(1) == ['1'];
    assert IntToString(12) == NatToString(1) + [DigitChar(2)] == "12";
    assert KeyString(Num(12)) == Ok(Str("12"));
  }

  lemma CreateElementIgnoresUndefinedKeyAndRef()
    ensures CreateElement(Component, Rec(map["foo" := Str("56"), "key" := Undefined, "ref" := Undefined]), [])
      == Ok(ReactElement(Component, Null, Null, map["foo" := Str("56")]))
  {
    var config := map["foo" := Str("56"), "key" := Undefined, "ref" := Undefined];
    assert PropsOf(Rec(config)) == map["foo" := Str("56")];
  }

  /** One extra argument replaces `config.children`, even null; none keeps it; several form an array. */
  lemma CreateElementChildren()
    ensures CreateElement(Component, Rec(map["children" := Str("text")]), [Num(1)])
      == Ok(ReactElement(Component, Null, Null, map["children" := Num(1)]))
    ensures CreateElement(Component, Rec(map["children" := Str("text")]), [])
      == Ok(ReactElement(Component, Null, Null, map["children" := Str("text")]))
    ensures CreateElement(Component, Rec(map["children" := Str("text")]), [Null])
      == Ok(ReactElement(Component, Null, Null, map["children" := Null]))
    ensures CreateElement(Component, Null, [Num(1), Num(2), Num(3)])
      == Ok(ReactElement(Component, Null, Null, map["children" := Arr([Num(1), Num(2), Num(3)])]))
  {
    var config := map["children" := Str("text")];
    assert PropsOf(Rec(config)) == config;
    assert config["children" := Num(1)] == map["children" := Num(1)];
    assert config["children" := Null] == map["children" := Null];
  }
}
