/**
 * JSON-like JavaScript values, as seen by the deep-merge and deep-search
 * utilities: primitives, functions, symbols and objects (arrays are objects
 * whose keys are the indices). An object is its list of enumerable
 * properties in for-in order; each property records whether it is the
 * object's own or inherited through the prototype chain.
 */
module JsValues {

  datatype Value =
    | Undefined
    | Null
    | Bool(b: bool)
    | Num(n: int)
    | Str(s: string)
    | Func
    | Sym
    | Obj(props: seq<Prop>)

  datatype Prop = Prop(key: string, value: Value, own: bool)

  /** The kinds of value JavaScript's typeof operator reports. */
  datatype JsType =
    | UndefinedType
    | ObjectType
    | BooleanType
    | NumberType
    | StringType
    | FunctionType
    | SymbolType
  {
    /** The string typeof returns for this kind. */
    function Name(): string {
      match this
      case UndefinedType => "undefined"
      case ObjectType => "object"
      case BooleanType => "boolean"
      case NumberType => "number"
      case StringType => "string"
      case FunctionType => "function"
      case SymbolType => "symbol"
    }
  }

  /**
   * The kinds are told apart by their names, so comparing the string typeof
   * returns with "function", "symbol" or "object", as the source does, is
   * comparing the kinds themselves.
   */
  lemma TypeNamesDistinct(a: JsType, b: JsType)
    ensures a.Name() == b.Name() <==> a == b
  {
  }

  /**
   * JavaScript's typeof operator: "object" for objects and also for null,
   * "function" and "symbol" only for functions and symbols.
   */
  function TypeOf(v: Value): (t: JsType)
    ensures t == ObjectType <==> v.Obj? || v.Null?
    ensures t == FunctionType <==> v.Func?
    ensures t == SymbolType <==> v.Sym?
    ensures t == UndefinedType <==> v.Undefined?
  {
    match v
    case Undefined => UndefinedType
    case Null => ObjectType
    case Bool(_) => BooleanType
    case Num(_) => NumberType
    case Str(_) => StringType
    case Func => FunctionType
    case Sym => SymbolType
    case Obj(_) => ObjectType
  }

  /** JavaScript truthiness: exactly undefined, null, false, 0 and "" are falsy. */
  predicate Truthy(v: Value): (r: bool)
    ensures !r <==> v == Undefined || v == Null || v == Bool(false) || v == Num(0) || v == Str("")
  {
    match v
    case Undefined => false
    case Null => false
    case Bool(b) => b
    case Num(n) => n != 0
    case Str(s) => s != ""
    case _ => true
  }

  /** A truthy value whose typeof is "object" is exactly a non-null object. */
  lemma TruthyObjectIsObj(v: Value)
    ensures (Truthy(v) && TypeOf(v) == ObjectType) <==> v.Obj?
  {
  }

  /** Whether a property with the given key is present. */
  predicate Has(props: seq<Prop>, key: string) {
    exists i | 0 <= i < |props| :: props[i].key == key
  }

  /** Property access obj[key]: the first property with that key, or undefined when there is none. */
  function Get(props: seq<Prop>, key: string): (r: Value)
    ensures !Has(props, key) ==> r == Undefined
  {
    if props == [] then Undefined
    else if props[0].key == key then props[0].value
    else
      HasCons(props[0], props[1..], key);
      assert props == [props[0]] + props[1..];
      Get(props[1..], key)
  }

  /**
   * A missing key reads as undefined; a present one reads as the value of
   * the first property with that key.
   */
  lemma {:induction false} GetFirst(props: seq<Prop>, key: string)
    ensures !Has(props, key) ==> Get(props, key) == Undefined
    ensures Has(props, key) ==> exists i | 0 <= i < |props| ::
              && props[i].key == key && props[i].value == Get(props, key)
              && forall j | 0 <= j < i :: props[j].key != key
  {
    if props != [] {
      GetFirst(props[1..], key);
      HasCons(props[0], props[1..], key);
      assert props == [props[0]] + props[1..];
      if props[0].key != key && Has(props[1..], key) {
        var i :| 0 <= i < |props[1..]| && props[1..][i].key == key && props[1..][i].value == Get(props[1..], key)
                 && forall j | 0 <= j < i :: props[1..][j].key != key;
        assert props[i + 1] == props[1..][i];
        forall j | 0 <= j < i + 1 ensures props[j].key != key {
          if j > 0 {
            assert props[j] == props[1..][j - 1];
          }
        }
      }
    }
  }

  /**
   * Property assignment obj[key] = v: the first property with that key gets
   * the new value, or a new own property is appended.
   */
  function Put(props: seq<Prop>, key: string, v: Value): (r: seq<Prop>)
    ensures Get(r, key) == v
    ensures Has(r, key)
    ensures forall k | k != key :: Get(r, k) == Get(props, k)
    ensures forall k | k != key :: Has(r, k) == Has(props, k)
  {
    if props == [] then [Prop(key, v, true)]
    else if props[0].key == key then
      var r := [Prop(key, v, true)] + props[1..];
      assert props == [props[0]] + props[1..];
      assert forall k :: Has(r, k) == (key == k || Has(props[1..], k)) by {
        forall k { HasCons(Prop(key, v, true), props[1..], k); }
      }
      assert forall k :: Has(props, k) == (key == k || Has(props[1..], k)) by {
        forall k { HasCons(props[0], props[1..], k); }
      }
      r
    else
      var rest := Put(props[1..], key, v);
      assert props == [props[0]] + props[1..];
      assert forall k :: Has([props[0]] + rest, k) == (props[0].key == k || Has(rest, k)) by {
        forall k { HasCons(props[0], rest, k); }
      }
      assert forall k :: Has(props, k) == (props[0].key == k || Has(props[1..], k)) by {
        forall k { HasCons(props[0], props[1..], k); }
      }
      [props[0]] + rest
  }

  lemma HasCons(p: Prop, rest: seq<Prop>, k: string)
    ensures Has([p] + rest, k) == (p.key == k || Has(rest, k))
  {
    assert ([p] + rest)[0] == p;
    if Has(rest, k) {
      var i :| 0 <= i < |rest| && rest[i].key == k;
      assert ([p] + rest)[i + 1] == rest[i];
    }
    if Has([p] + rest, k) && p.key != k {
      var i :| 0 <= i < |[p] + rest| && ([p] + rest)[i].key == k;
      assert i > 0;
      assert rest[i - 1] == ([p] + rest)[i];
    }
  }

  /** The keys of a property list are pairwise distinct, as for-in guarantees. */
  predicate DistinctKeys(props: seq<Prop>) {
    forall i, j | 0 <= i < j < |props| :: props[i].key != props[j].key
  }
}
