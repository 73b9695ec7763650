/** The value `JSON.parse` hands back, JavaScript's property access and truthiness
    on it, and the deck the rest of the application passes around. */
module SlideData {
  import opened Wrappers

  /** A parsed JSON value. Numbers are kept as integers; an object keeps its members
      in source order, duplicates included. */
  datatype Json =
    | JNull
    | JBool(b: bool)
    | JNumber(n: int)
    | JString(s: string)
    | JArray(items: seq<Json>)
    | JObject(members: seq<(string, Json)>)

  /** A deck is the parsed array as it came back: `slidesData as Slide[]` is a cast
      that checks nothing beyond the validation in the generation client. */
  type Deck = seq<Json>

  /** `obj[key]` on an object parsed from JSON: the value of the LAST member with
      that key (a later duplicate overwrites an earlier one), or `undefined`. */
  function Get(members: seq<(string, Json)>, key: string): Option<Json> {
    if members == [] then None
    else if members[|members| - 1].0 == key then Some(members[|members| - 1].1)
    else Get(members[..|members| - 1], key)
  }

  /** `Get` is `undefined` exactly when no member has the key, and otherwise the
      value of a member with the key that no later member shares. */
  lemma {:induction false} GetSpec(members: seq<(string, Json)>, key: string)
    ensures Get(members, key).None? <==> forall i :: 0 <= i < |members| ==> members[i].0 != key
    ensures Get(members, key).Some? ==>
              exists i :: 0 <= i < |members| && members[i] == (key, Get(members, key).value) &&
                          forall j :: i < j < |members| ==> members[j].0 != key
  {
    if members != [] && members[|members| - 1].0 != key {
      var init := members[..|members| - 1];
      GetSpec(init, key);
      forall i | 0 <= i < |init| ensures init[i] == members[i] { }
    }
  }

  /** A member whose key differs from the one read does not change the read,
      wherever in the object it stands. */
  lemma {:induction false} GetIgnoresOtherKey(a: seq<(string, Json)>, m: (string, Json),
                                                b: seq<(string, Json)>, key: string)
    requires m.0 != key
    ensures Get(a + [m] + b, key) == Get(a + b, key)
    decreases |b|
  {
    var ms, ns := a + [m] + b, a + b;
    if b == [] {
      assert ms[|ms| - 1] == m;
      assert ms[..|ms| - 1] == ns;
      assert Get(ms, key) == Get(ns, key);
    } else {
      var last, b' := b[|b| - 1], b[..|b| - 1];
      assert ms[|ms| - 1] == last && ns[|ns| - 1] == last;
      if last.0 == key {
        assert Get(ms, key) == Some(last.1) == Get(ns, key);
      } else {
        GetIgnoresOtherKey(a, m, b', key);
        assert ms[..|ms| - 1] == a + [m] + b';
        assert ns[..|ns| - 1] == a + b';
        assert Get(ms, key) == Get(a + [m] + b', key) == Get(a + b', key) == Get(ns, key);
      }
    }
  }

  /** JavaScript truthiness of a property read: `undefined`, `null`, `false`, `0` and
      `""` are falsy, every array and object is truthy. */
  predicate Truthy(v: Option<Json>) {
    match v
    case None => false
    case Some(JNull) => false
    case Some(JBool(b)) => b
    case Some(JNumber(n)) => n != 0
    case Some(JString(s)) => s != ""
    case Some(JArray(_)) => true
    case Some(JObject(_)) => true
  }

  /** `Array.isArray` of a property read. */
  predicate IsArray(v: Option<Json>) {
    v.Some? && v.value.JArray?
  }
}
