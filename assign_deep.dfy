/**
 * The recursive settings merge used when persisted settings are loaded: each
 * enumerable own entry of the source is written into the target, objects
 * are merged key by key, and prototype-polluting keys, functions and
 * symbols are skipped.
 */
module AssignDeep {
  import opened JsValues

  /** The keys never copied, to keep the prototype chain out of reach. */
  predicate ReservedKey(key: string) {
    key == "__proto__" || key == "constructor"
  }

  /** A source entry the merge passes over without touching the target. */
  predicate Skipped(p: Prop) {
    || !p.own
    || ReservedKey(p.key)
    || TypeOf(p.value) == FunctionType
    || TypeOf(p.value) == SymbolType
  }

  /** The target's properties after merging the whole source into them. */
  function Merged(target: seq<Prop>, source: Value): seq<Prop>
    decreases source, 1, 0
  {
    if source.Obj? then MergedPrefix(target, source, |source.props|) else target
  }

  /** The target's properties after the first n entries of the source. */
  function MergedPrefix(target: seq<Prop>, source: Value, n: nat): seq<Prop>
    requires source.Obj? && n <= |source.props|
    decreases source, 0, n
  {
    if n == 0 then target
    else MergedEntry(MergedPrefix(target, source, n - 1), source, n - 1)
  }

  /** The effect on the target of the i-th entry of the source. */
  function MergedEntry(target: seq<Prop>, source: Value, i: nat): seq<Prop>
    requires source.Obj? && i < |source.props|
    decreases source, 0, 0
  {
    var p := source.props[i];
    assert p in source.props;
    if Skipped(p) then target
    else
      var existing := Get(target, p.key);
      if TypeOf(p.value) == ObjectType then
        if !Truthy(existing) || TypeOf(existing) != ObjectType then Put(target, p.key, p.value)
        else Put(target, p.key, Obj(Merged(existing.props, p.value)))
      else if existing == p.value then target
      else Put(target, p.key, p.value)
  }

  /**
   * The merge itself: a loop over the source's entries, recursing into an
   * object entry that meets an object in the target. It returns the merged
   * target properties.
   */
  method AssignDeep(target: seq<Prop>, source: Value) returns (result: seq<Prop>)
    ensures result == Merged(target, source)
    decreases source
  {
    result := target;
    if !source.Obj? {
      return;
    }
    var i := 0;
    while i < |source.props|
      invariant i <= |source.props|
      invariant result == MergedPrefix(target, source, i)
    {
      var p := source.props[i];
      assert p in source.props;
      if !p.own || p.key == "__proto__" || p.key == "constructor" {
        // not an own entry, or a reserved key
      } else if TypeOf(p.value) == FunctionType || TypeOf(p.value) == SymbolType {
        // functions and symbols are never restored
      } else {
        var value := p.value;
        var existing := Get(result, p.key);
        if TypeOf(value) == ObjectType {
          if !Truthy(existing) || TypeOf(existing) != ObjectType {
            result := Put(result, p.key, value);
          } else {
            var merged := AssignDeep(existing.props, value);
            result := Put(result, p.key, Obj(merged));
          }
        } else if existing != value {
          result := Put(result, p.key, value);
        }
      }
      i := i + 1;
    }
  }

  /** The source holds no non-skipped entry for key k among its first n entries. */
  predicate UntouchedUpTo(source: Value, n: nat, k: string)
    requires source.Obj? && n <= |source.props|
  {
    forall i | 0 <= i < n :: source.props[i].key == k ==> Skipped(source.props[i])
  }

  lemma {:induction false} MergedPrefixUntouched(target: seq<Prop>, source: Value, n: nat, k: string)
    requires source.Obj? && n <= |source.props|
    requires UntouchedUpTo(source, n, k)
    ensures Get(MergedPrefix(target, source, n), k) == Get(target, k)
    ensures Has(MergedPrefix(target, source, n), k) == Has(target, k)
  {
    if n > 0 {
      MergedPrefixUntouched(target, source, n - 1, k);
      MergedEntryUntouched(MergedPrefix(target, source, n - 1), source, n - 1, k);
    }
  }

  /** An entry of the source that is skipped or has another key leaves key k of the target alone. */
  lemma MergedEntryUntouched(target: seq<Prop>, source: Value, i: nat, k: string)
    requires source.Obj? && i < |source.props|
    requires source.props[i].key == k ==> Skipped(source.props[i])
    ensures Get(MergedEntry(target, source, i), k) == Get(target, k)
    ensures Has(MergedEntry(target, source, i), k) == Has(target, k)
  {
  }

  /**
   * A target key for which the source has no own, non-reserved entry other
   * than a function or a symbol keeps its value, and is present afterwards
   * exactly when it was present before.
   */
  lemma MergedKeepsUntouchedKeys(target: seq<Prop>, source: Value, k: string)
    requires source.Obj? ==> forall i | 0 <= i < |source.props| :: source.props[i].key == k ==> Skipped(source.props[i])
    ensures Get(Merged(target, source), k) == Get(target, k)
    ensures Has(Merged(target, source), k) == Has(target, k)
  {
    if source.Obj? {
      MergedPrefixUntouched(target, source, |source.props|, k);
    }
  }

  lemma {:induction false} MergedPrefixKeepsKeys(target: seq<Prop>, source: Value, n: nat, k: string)
    requires source.Obj? && n <= |source.props|
    requires Has(target, k)
    ensures Has(MergedPrefix(target, source, n), k)
  {
    if n > 0 {
      MergedPrefixKeepsKeys(target, source, n - 1, k);
      MergedEntryKeepsKeys(MergedPrefix(target, source, n - 1), source, n - 1, k);
    }
  }

  lemma MergedEntryKeepsKeys(target: seq<Prop>, source: Value, i: nat, k: string)
    requires source.Obj? && i < |source.props|
    requires Has(target, k)
    ensures Has(MergedEntry(target, source, i), k)
  {
  }

  /** The merge never removes a key from the target. */
  lemma MergedKeepsKeys(target: seq<Prop>, source: Value, k: string)
    requires Has(target, k)
    ensures Has(Merged(target, source), k)
  {
    if source.Obj? {
      MergedPrefixKeepsKeys(target, source, |source.props|, k);
    }
  }

  /** What the target holds under the key of a non-skipped source entry after the merge. */
  function MergedValue(existing: Value, value: Value): Value {
    if TypeOf(value) == ObjectType && existing.Obj? then Obj(Merged(existing.props, value))
    else value
  }

  lemma {:induction false} MergedPrefixEntry(target: seq<Prop>, source: Value, n: nat, i: nat)
    requires source.Obj? && DistinctKeys(source.props)
    requires i < n <= |source.props| && !Skipped(source.props[i])
    ensures Get(MergedPrefix(target, source, n), source.props[i].key)
            == MergedValue(Get(target, source.props[i].key), source.props[i].value)
  {
    var p := source.props[i];
    if n == i + 1 {
      assert UntouchedUpTo(source, i, p.key);
      MergedPrefixUntouched(target, source, i, p.key);
      var before := MergedPrefix(target, source, i);
      var existing := Get(before, p.key);
      assert existing == Get(target, p.key);
      TruthyObjectIsObj(existing);
      assert MergedPrefix(target, source, n) == MergedEntry(before, source, i);
      if TypeOf(p.value) == ObjectType {
        if !existing.Obj? {
          assert MergedEntry(before, source, i) == Put(before, p.key, p.value);
        } else {
          assert MergedEntry(before, source, i) == Put(before, p.key, Obj(Merged(existing.props, p.value)));
        }
      } else if existing != p.value {
        assert MergedEntry(before, source, i) == Put(before, p.key, p.value);
      } else {
        assert MergedEntry(before, source, i) == before;
      }
    } else {
      MergedPrefixEntry(target, source, n - 1, i);
      assert source.props[n - 1].key != p.key;
      MergedEntryUntouched(MergedPrefix(target, source, n - 1), source, n - 1, p.key);
    }
  }

  /**
   * Each own, non-reserved source entry that is not a function or a symbol
   * decides the target's entry for its key: an object (or null) value
   * replaces a target entry that is not an object and is merged into one
   * that is; any other value is stored as it is.
   */
  lemma MergedEntryValue(target: seq<Prop>, source: Value, i: nat)
    requires source.Obj? && DistinctKeys(source.props)
    requires i < |source.props| && !Skipped(source.props[i])
    ensures var p := source.props[i];
            var existing := Get(target, p.key);
            var after := Get(Merged(target, source), p.key);
            && (TypeOf(p.value) == ObjectType && !existing.Obj? ==> after == p.value)
            && (TypeOf(p.value) == ObjectType && existing.Obj? ==> after == Obj(Merged(existing.props, p.value)))
            && (TypeOf(p.value) != ObjectType ==> after == p.value)
  {
    MergedPrefixEntry(target, source, |source.props|, i);
  }

  /** A null source entry over an object in the target leaves that object as it was. */
  lemma NullOverObjectUnchanged(target: seq<Prop>, source: Value, i: nat)
    requires source.Obj? && DistinctKeys(source.props)
    requires i < |source.props| && !Skipped(source.props[i])
    requires source.props[i].value == Null && Get(target, source.props[i].key).Obj?
    ensures Get(Merged(target, source), source.props[i].key) == Get(target, source.props[i].key)
  {
    MergedEntryValue(target, source, i);
  }

  /** The worked example: {a:1, b:{c:2}} merged with {b:{c:5, d:6}} gives {a:1, b:{c:5, d:6}}. */
  lemma MergeExample()
    ensures Merged([Prop("a", Num(1), true), Prop("b", Obj([Prop("c", Num(2), true)]), true)],
                   Obj([Prop("b", Obj([Prop("c", Num(5), true), Prop("d", Num(6), true)]), true)]))
            == [Prop("a", Num(1), true), Prop("b", Obj([Prop("c", Num(5), true), Prop("d", Num(6), true)]), true)]
  {
    var inner := [Prop("c", Num(2), true)];
    var innerSource := Obj([Prop("c", Num(5), true), Prop("d", Num(6), true)]);
    var target := [Prop("a", Num(1), true), Prop("b", Obj(inner), true)];
    var source := Obj([Prop("b", innerSource, true)]);
    assert MergedPrefix(inner, innerSource, 1) == [Prop("c", Num(5), true)];
    assert Merged(inner, innerSource) == [Prop("c", Num(5), true), Prop("d", Num(6), true)];
    assert Get(target, "b") == Obj(inner);
    assert MergedEntry(target, source, 0) == Put(target, "b", Obj(Merged(inner, innerSource)));
    assert Merged(target, source) == MergedPrefix(target, source, 1);
    assert MergedPrefix(target, source, 1) == MergedEntry(MergedPrefix(target, source, 0), source, 0);
  }
}
