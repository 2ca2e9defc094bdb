/**
 * Depth-first, pre-order search of a value for properties with a given
 * name. The search keeps a shared stack of the keys leading to the object
 * being visited, records a snapshot of it with every match, and can stop at
 * the first match.
 */
module FindElement {
  import opened JsValues

  datatype SearchOptions = SearchOptions(caseSensitive: bool, returnFirstResult: bool)

  /** One match: the matching key, the keys from the root to the object holding it, and its value. */
  datatype FoundProperty = FoundProperty(propertyName: string, path: seq<string>, value: Value)

  /** Whether the search goes on after a subtree or stops everywhere. */
  datatype SearchResult = Continue | Abort

  /**
   * What a search is looking for. The case-insensitive comparison is the
   * locale collator's "equal at base sensitivity", given as a function.
   */
  datatype Query = Query(targetPropertyName: string, options: SearchOptions,
                         collatorEquals: (string, string) -> bool)

  /** The matches of a (partial) search and whether it stopped. */
  datatype Outcome = Outcome(found: seq<FoundProperty>, result: SearchResult)

  predicate IsMatch(q: Query, key: string) {
    if q.options.caseSensitive then key == q.targetPropertyName
    else q.collatorEquals(q.targetPropertyName, key)
  }

  /** The search of obj, whose keys from the root are path. */
  function Search(q: Query, path: seq<string>, obj: Value): Outcome
    decreases obj, 1, 0
  {
    if obj.Obj? then SearchUpTo(q, path, obj, |obj.props|) else Outcome([], Continue)
  }

  /** The search of the first n properties of obj, stopping at the first Abort. */
  function SearchUpTo(q: Query, path: seq<string>, obj: Value, n: nat): Outcome
    requires obj.Obj? && n <= |obj.props|
    decreases obj, 0, n
  {
    if n == 0 then Outcome([], Continue)
    else
      var prev := SearchUpTo(q, path, obj, n - 1);
      if prev.result == Abort then prev
      else
        var here := SearchAt(q, path, obj, n - 1);
        Outcome(prev.found + here.found, here.result)
  }

  /** The visit of the i-th property of obj: the match test, then the descent into an object. */
  function SearchAt(q: Query, path: seq<string>, obj: Value, i: nat): Outcome
    requires obj.Obj? && i < |obj.props|
    decreases obj, 0, 0
  {
    var p := obj.props[i];
    assert p in obj.props;
    var here := if IsMatch(q, p.key) then [FoundProperty(p.key, path, p.value)] else [];
    if IsMatch(q, p.key) && q.options.returnFirstResult then Outcome(here, Abort)
    else if TypeOf(p.value) == ObjectType then
      var child := Search(q, path + [p.key], p.value);
      Outcome(here + child.found, child.result)
    else Outcome(here, Continue)
  }

  /** Once the search of a prefix of the properties aborts, later properties add nothing. */
  lemma {:induction false} AbortIsFinal(q: Query, path: seq<string>, obj: Value, m: nat, n: nat)
    requires obj.Obj? && m <= n <= |obj.props|
    requires SearchUpTo(q, path, obj, m).result == Abort
    ensures SearchUpTo(q, path, obj, n) == SearchUpTo(q, path, obj, m)
  {
    if n > m {
      AbortIsFinal(q, path, obj, m, n - 1);
    }
  }

  /**
   * Following the keys of rel from obj, through objects only, reaches an
   * object that has a property named key with the given value.
   */
  ghost predicate PropertyAt(obj: Value, rel: seq<string>, key: string, value: Value)
    decreases rel
  {
    obj.Obj? && exists j | 0 <= j < |obj.props| ::
      if rel == [] then obj.props[j].key == key && obj.props[j].value == value
      else obj.props[j].key == rel[0] && PropertyAt(obj.props[j].value, rel[1..], key, value)
  }

  /** A match reported by the search of obj at path: its name matches, and its path leads to it. */
  ghost predicate Sound(q: Query, path: seq<string>, obj: Value, f: FoundProperty) {
    && IsMatch(q, f.propertyName)
    && |path| <= |f.path| && f.path[..|path|] == path
    && PropertyAt(obj, f.path[|path|..], f.propertyName, f.value)
  }

  lemma {:induction false} SearchSound(q: Query, path: seq<string>, obj: Value)
    decreases obj, 1, 0
    ensures forall f | f in Search(q, path, obj).found :: Sound(q, path, obj, f)
  {
    if obj.Obj? {
      SearchUpToSound(q, path, obj, |obj.props|);
    }
  }

  lemma {:induction false} SearchUpToSound(q: Query, path: seq<string>, obj: Value, n: nat)
    requires obj.Obj? && n <= |obj.props|
    decreases obj, 0, n
    ensures forall f | f in SearchUpTo(q, path, obj, n).found :: Sound(q, path, obj, f)
  {
    if n > 0 {
      SearchUpToSound(q, path, obj, n - 1);
      SearchAtSound(q, path, obj, n - 1);
    }
  }

  lemma {:induction false} SearchAtSound(q: Query, path: seq<string>, obj: Value, i: nat)
    requires obj.Obj? && i < |obj.props|
    decreases obj, 0, 0
    ensures forall f | f in SearchAt(q, path, obj, i).found :: Sound(q, path, obj, f)
  {
    var p := obj.props[i];
    assert p in obj.props;
    var direct := FoundProperty(p.key, path, p.value);
    if IsMatch(q, p.key) {
      assert direct.path[|path|..] == [];
      assert PropertyAt(obj, [], p.key, p.value) by {
        assert obj.props[i].key == p.key && obj.props[i].value == p.value;
      }
      assert Sound(q, path, obj, direct);
    }
    if !(IsMatch(q, p.key) && q.options.returnFirstResult) && TypeOf(p.value) == ObjectType {
      var childPath := path + [p.key];
      SearchSound(q, childPath, p.value);
      forall f | f in Search(q, childPath, p.value).found
        ensures Sound(q, path, obj, f)
      {
        assert Sound(q, childPath, p.value, f);
        var rel := f.path[|path|..];
        assert f.path[..|path|] == f.path[..|childPath|][..|path|];
        assert rel[0] == p.key by {
          assert rel[0] == f.path[|path|] == f.path[..|childPath|][|path|];
        }
        assert rel[1..] == f.path[|childPath|..];
        assert PropertyAt(obj, rel, f.propertyName, f.value) by {
          assert obj.props[i].key == rel[0];
          assert PropertyAt(obj.props[i].value, rel[1..], f.propertyName, f.value);
        }
      }
    }
  }

  /** The query that differs from q only in collecting every match. */
  function AllResults(q: Query): Query {
    q.(options := q.options.(returnFirstResult := false))
  }

  /** The first element of s alone, or nothing when s is empty. */
  function FirstOf<T>(s: seq<T>): seq<T> {
    if s == [] then [] else [s[0]]
  }

  /** The outcome reports only the first of the results all, and aborts exactly when there is one. */
  predicate StopsAtFirst(o: Outcome, all: seq<FoundProperty>) {
    o.found == FirstOf(all) && (o.result == Abort <==> all != [])
  }

  /**
   * A search that stops at the first result reports the first of the
   * results the full search collects, and aborts exactly when there is one.
   */
  lemma {:induction false} SearchFirst(q: Query, path: seq<string>, obj: Value)
    requires q.options.returnFirstResult
    decreases obj, 1, 0
    ensures StopsAtFirst(Search(q, path, obj), Search(AllResults(q), path, obj).found)
  {
    if obj.Obj? {
      SearchUpToFirst(q, path, obj, |obj.props|);
    }
  }

  lemma {:induction false} SearchUpToFirst(q: Query, path: seq<string>, obj: Value, n: nat)
    requires q.options.returnFirstResult
    requires obj.Obj? && n <= |obj.props|
    decreases obj, 0, n
    ensures StopsAtFirst(SearchUpTo(q, path, obj, n), SearchUpTo(AllResults(q), path, obj, n).found)
  {
    if n > 0 {
      var all := AllResults(q);
      SearchUpToFirst(q, path, obj, n - 1);
      SearchAtFirst(q, path, obj, n - 1);
      SearchUpToNeverAborts(all, path, obj, n - 1);
      var prev := SearchUpTo(q, path, obj, n - 1);
      var here := SearchAt(q, path, obj, n - 1);
      var prevAll := SearchUpTo(all, path, obj, n - 1);
      var hereAll := SearchAt(all, path, obj, n - 1);
      FirstOfStep(prev, here, prevAll.found, hereAll.found);
      assert SearchUpTo(q, path, obj, n) ==
        if prev.result == Abort then prev else Outcome(prev.found + here.found, here.result);
      assert prevAll.result == Continue;
      assert SearchUpTo(all, path, obj, n) == Outcome(prevAll.found + hereAll.found, hereAll.result);
    }
  }

  /** One step of SearchUpToFirst, on the outcomes alone. */
  lemma FirstOfStep(prev: Outcome, here: Outcome, prevAll: seq<FoundProperty>, hereAll: seq<FoundProperty>)
    requires StopsAtFirst(prev, prevAll) && StopsAtFirst(here, hereAll)
    ensures StopsAtFirst(if prev.result == Abort then prev else Outcome(prev.found + here.found, here.result),
                         prevAll + hereAll)
  {
    if prevAll != [] {
      assert (prevAll + hereAll)[0] == prevAll[0];
    } else {
      assert prevAll + hereAll == hereAll;
    }
  }

  lemma {:induction false} SearchAtFirst(q: Query, path: seq<string>, obj: Value, i: nat)
    requires q.options.returnFirstResult
    requires obj.Obj? && i < |obj.props|
    decreases obj, 0, 0
    ensures StopsAtFirst(SearchAt(q, path, obj, i), SearchAt(AllResults(q), path, obj, i).found)
  {
    var p := obj.props[i];
    assert p in obj.props;
    assert IsMatch(AllResults(q), p.key) == IsMatch(q, p.key);
    if TypeOf(p.value) == ObjectType {
      SearchFirst(q, path + [p.key], p.value);
    }
  }

  lemma {:induction false} SearchNeverAborts(q: Query, path: seq<string>, obj: Value)
    requires !q.options.returnFirstResult
    decreases obj, 1, 0
    ensures Search(q, path, obj).result == Continue
  {
    if obj.Obj? {
      SearchUpToNeverAborts(q, path, obj, |obj.props|);
    }
  }

  lemma {:induction false} SearchUpToNeverAborts(q: Query, path: seq<string>, obj: Value, n: nat)
    requires !q.options.returnFirstResult
    requires obj.Obj? && n <= |obj.props|
    decreases obj, 0, n
    ensures SearchUpTo(q, path, obj, n).result == Continue
  {
    if n > 0 {
      SearchUpToNeverAborts(q, path, obj, n - 1);
      SearchAtNeverAborts(q, path, obj, n - 1);
    }
  }

  lemma {:induction false} SearchAtNeverAborts(q: Query, path: seq<string>, obj: Value, i: nat)
    requires !q.options.returnFirstResult
    requires obj.Obj? && i < |obj.props|
    decreases obj, 0, 0
    ensures SearchAt(q, path, obj, i).result == Continue
  {
    var p := obj.props[i];
    assert p in obj.props;
    if TypeOf(p.value) == ObjectType {
      SearchNeverAborts(q, path + [p.key], p.value);
    }
  }

  lemma {:induction false} SearchUpToContainsAt(q: Query, path: seq<string>, obj: Value, j: nat, n: nat)
    requires !q.options.returnFirstResult
    requires obj.Obj? && j < n <= |obj.props|
    ensures forall f | f in SearchAt(q, path, obj, j).found :: f in SearchUpTo(q, path, obj, n).found
  {
    SearchUpToNeverAborts(q, path, obj, n - 1);
    if n - 1 > j {
      SearchUpToContainsAt(q, path, obj, j, n - 1);
    }
  }

  lemma {:induction false} SearchComplete(q: Query, path: seq<string>, obj: Value, rel: seq<string>, key: string, value: Value)
    requires !q.options.returnFirstResult
    requires IsMatch(q, key) && PropertyAt(obj, rel, key, value)
    decreases rel
    ensures FoundProperty(key, path + rel, value) in Search(q, path, obj).found
  {
    var j :| 0 <= j < |obj.props| &&
      if rel == [] then obj.props[j].key == key && obj.props[j].value == value
      else obj.props[j].key == rel[0] && PropertyAt(obj.props[j].value, rel[1..], key, value);
    var p := obj.props[j];
    SearchUpToContainsAt(q, path, obj, j, |obj.props|);
    if rel == [] {
      assert path + rel == path;
      assert FoundProperty(key, path, value) in SearchAt(q, path, obj, j).found;
    } else {
      var childPath := path + [p.key];
      SearchComplete(q, childPath, p.value, rel[1..], key, value);
      assert childPath + rel[1..] == path + rel;
      assert p.value.Obj?;
      var child := Search(q, childPath, p.value);
      assert SearchAt(q, path, obj, j).found == (if IsMatch(q, p.key) then [FoundProperty(p.key, path, p.value)] else []) + child.found;
    }
  }

  /**
   * Every reported match has a matching name (the exact name when the
   * search is case-sensitive), and its path is the list of keys from the
   * root to the object that holds it.
   */
  lemma FoundPropertiesMatch(q: Query, obj: Value)
    ensures forall f | f in Search(q, [], obj).found ::
              && (q.options.caseSensitive ==> f.propertyName == q.targetPropertyName)
              && (!q.options.caseSensitive ==> q.collatorEquals(q.targetPropertyName, f.propertyName))
              && PropertyAt(obj, f.path, f.propertyName, f.value)
  {
    SearchSound(q, [], obj);
    forall f | f in Search(q, [], obj).found
      ensures PropertyAt(obj, f.path, f.propertyName, f.value)
    {
      assert Sound(q, [], obj, f);
      assert f.path[0..] == f.path;
    }
  }

  /**
   * With returnFirstResult the search reports exactly the first, in
   * pre-order, of the matches the full search collects (so at most one),
   * and it aborts exactly when there is a match.
   */
  lemma FirstResultOnly(q: Query, obj: Value)
    requires q.options.returnFirstResult
    ensures |Search(q, [], obj).found| <= 1
    ensures Search(q, [], obj).found == FirstOf(Search(AllResults(q), [], obj).found)
    ensures Search(q, [], obj).result == Abort <==> Search(AllResults(q), [], obj).found != []
  {
    SearchFirst(q, [], obj);
  }

  /**
   * Without returnFirstResult the search reports exactly the properties with
   * a matching name, each with the path that leads to it.
   */
  lemma AllMatchesFound(q: Query, obj: Value, f: FoundProperty)
    requires !q.options.returnFirstResult
    ensures f in Search(q, [], obj).found <==> IsMatch(q, f.propertyName) && PropertyAt(obj, f.path, f.propertyName, f.value)
  {
    if f in Search(q, [], obj).found {
      SearchSound(q, [], obj);
      assert f.path[0..] == f.path;
    }
    if IsMatch(q, f.propertyName) && PropertyAt(obj, f.path, f.propertyName, f.value) {
      SearchComplete(q, [], obj, f.path, f.propertyName, f.value);
      assert [] + f.path == f.path;
    }
  }

  /**
   * The worked example: in {x:{y:{target:1}}}, a case-insensitive search for
   * "TARGET" that stops at the first result finds target under [x, y]; a
   * case-sensitive search for "TARGET" finds nothing.
   */
  lemma SearchExample(collatorEquals: (string, string) -> bool)
    requires collatorEquals("TARGET", "target")
    requires !collatorEquals("TARGET", "x") && !collatorEquals("TARGET", "y")
    ensures var root := Obj([Prop("x", Obj([Prop("y", Obj([Prop("target", Num(1), true)]), true)]), true)]);
            && Search(Query("TARGET", SearchOptions(false, true), collatorEquals), [], root).found
               == [FoundProperty("target", ["x", "y"], Num(1))]
            && Search(Query("TARGET", SearchOptions(true, true), collatorEquals), [], root).found == []
  {
    var leaf := Obj([Prop("target", Num(1), true)]);
    var mid := Obj([Prop("y", leaf, true)]);
    var root := Obj([Prop("x", mid, true)]);
    var qi := Query("TARGET", SearchOptions(false, true), collatorEquals);
    assert Search(qi, ["x", "y"], leaf).found == [FoundProperty("target", ["x", "y"], Num(1))];
    assert ["x"] + ["y"] == ["x", "y"];
    assert SearchAt(qi, ["x"], mid, 0).found == [FoundProperty("target", ["x", "y"], Num(1))];
    assert SearchUpTo(qi, ["x"], mid, 1).found == [FoundProperty("target", ["x", "y"], Num(1))];
    assert Search(qi, ["x"], mid).found == [FoundProperty("target", ["x", "y"], Num(1))];
    assert [] + ["x"] == ["x"];
    var qs := Query("TARGET", SearchOptions(true, true), collatorEquals);
    assert Search(qs, ["x", "y"], leaf).found == [];
    assert SearchAt(qs, ["x"], mid, 0).found == [];
    assert SearchUpTo(qs, ["x"], mid, 1).found == [];
    assert Search(qs, ["x"], mid).found == [];
  }

  /** The search state shared by all levels of the recursion. */
  class SearchContext {
    const targetPropertyName: string
    const options: SearchOptions
    const collatorEquals: (string, string) -> bool
    var currentPath: seq<string>
    var results: seq<FoundProperty>

    constructor (name: string, options: SearchOptions, collatorEquals: (string, string) -> bool)
      ensures targetPropertyName == name && this.options == options && this.collatorEquals == collatorEquals
      ensures currentPath == [] && results == []
    {
      targetPropertyName := name;
      this.options := options;
      this.collatorEquals := collatorEquals;
      currentPath := [];
      results := [];
    }

    function AsQuery(): Query {
      Query(targetPropertyName, options, collatorEquals)
    }

    /**
     * Visits obj: appends its matches to results, restores the path stack
     * it found, and reports whether the search was aborted.
     */
    method SearchDeep(obj: Value) returns (r: SearchResult)
      modifies this
      decreases obj, 1
      ensures currentPath == old(currentPath)
      ensures results == old(results) + Search(AsQuery(), old(currentPath), obj).found
      ensures r == Search(AsQuery(), old(currentPath), obj).result
    {
      if !obj.Obj? {
        return Continue;
      }
      ghost var path := currentPath;
      ghost var before := results;
      var i := 0;
      while i < |obj.props|
        invariant i <= |obj.props|
        invariant currentPath == path
        invariant SearchUpTo(AsQuery(), path, obj, i).result == Continue
        invariant results == before + SearchUpTo(AsQuery(), path, obj, i).found
      {
        ghost var prev := SearchUpTo(AsQuery(), path, obj, i);
        var stepResult := VisitProperty(obj, i);
        assert results == before + (prev.found + SearchAt(AsQuery(), path, obj, i).found);
        if stepResult == Abort {
          AbortIsFinal(AsQuery(), path, obj, i + 1, |obj.props|);
          return Abort;
        }
        i := i + 1;
      }
      return Continue;
    }

    /** One turn of the loop in SearchDeep: the visit of the i-th property of obj. */
    method VisitProperty(obj: Value, i: nat) returns (r: SearchResult)
      requires obj.Obj? && i < |obj.props|
      modifies this
      decreases obj, 0
      ensures currentPath == old(currentPath)
      ensures results == old(results) + SearchAt(AsQuery(), old(currentPath), obj, i).found
      ensures r == SearchAt(AsQuery(), old(currentPath), obj, i).result
    {
      var key := obj.props[i].key;
      var value := obj.props[i].value;
      assert obj.props[i] in obj.props;
      ghost var path := currentPath;
      var isMatch := if options.caseSensitive then key == targetPropertyName
                     else collatorEquals(targetPropertyName, key);
      assert isMatch == IsMatch(AsQuery(), key);
      if isMatch {
        var clonedPath := currentPath;
        results := results + [FoundProperty(key, clonedPath, value)];
        if options.returnFirstResult {
          return Abort;
        }
      }
      if TypeOf(value) == ObjectType {
        currentPath := currentPath + [key];
        var childResult := SearchDeep(value);
        currentPath := currentPath[..|currentPath| - 1];
        assert currentPath == path;
        return childResult;
      }
      return Continue;
    }
  }

  /** The search entry point: a fresh context over obj, whose results are returned. */
  method FindElementDeep(obj: Value, name: string, options: SearchOptions,
                         collatorEquals: (string, string) -> bool)
    returns (results: seq<FoundProperty>)
    ensures results == Search(Query(name, options, collatorEquals), [], obj).found
  {
    var ctx := new SearchContext(name, options, collatorEquals);
    var _ := ctx.SearchDeep(obj);
    results := ctx.results;
  }
}
