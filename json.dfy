/**
 * scripts/python/plot_bucc/modules/NestedJSON.py and
 * scripts/python/json_log/modules/JSONdict.py: a loaded JSON document read
 * with one-line dotted keys, `doc["a.b.c"]` standing for
 * `data["a"]["b"]["c"]`. Both classes hold the same lookup; loading the file
 * is not part of this model.
 */
module Json {
  import opened Wrappers

  /** A value as `json.load` returns it. */
  datatype Json =
    | JNull
    | JBool(b: bool)
    | JNumber(n: real)
    | JString(s: string)
    | JArray(items: seq<Json>)
    | JObject(members: map<string, Json>)

  /** The exceptions a lookup raises: a key missing from an object, or a value that cannot be indexed by a string. */
  datatype LookupError = KeyError(key: string) | TypeError

  const Dot: char := '.'

  /** Python's `s.split('.')`: the pieces between the dots, empty pieces kept. */
  function Split(s: string): (parts: seq<string>)
    ensures |parts| >= 1
    ensures forall k :: 0 <= k < |parts| ==> Dot !in parts[k]
  {
    if s == [] then [""]
    else
      var rest := Split(s[1..]);
      if s[0] == Dot then [""] + rest
      else [[s[0]] + rest[0]] + rest[1..]
  }

  /** Python's `'.'.join(parts)`. */
  function JoinDots(parts: seq<string>): string
    requires |parts| >= 1
  {
    if |parts| == 1 then parts[0] else parts[0] + [Dot] + JoinDots(parts[1..])
  }

  /** Joining the pieces gives the key back. */
  lemma {:induction false} JoinSplit(s: string)
    ensures JoinDots(Split(s)) == s
  {
    if s != [] {
      JoinSplit(s[1..]);
      var rest := Split(s[1..]);
      if s[0] != Dot && |rest| > 1 {
        assert [s[0]] + rest[0] + [Dot] + JoinDots(rest[1..]) == [s[0]] + (rest[0] + [Dot] + JoinDots(rest[1..]));
      }
    }
  }

  /** A key with no dot is its own only piece. */
  lemma {:induction false} SplitNoDot(s: string)
    requires Dot !in s
    ensures Split(s) == [s]
  {
    if s != [] {
      assert Dot !in s[1..] by {
        forall c | c in s[1..] ensures c != Dot { assert c in s; }
      }
      SplitNoDot(s[1..]);
      assert s[0] in s;
      assert [s[0]] + s[1..] == s;
    }
  }

  /** The pieces of k1 . k2 are the pieces of k1 followed by the pieces of k2. */
  lemma {:induction false} SplitConcat(k1: string, k2: string)
    ensures Split(k1 + [Dot] + k2) == Split(k1) + Split(k2)
  {
    if k1 == [] {
      assert [] + [Dot] + k2 == [Dot] + k2;
      assert ([Dot] + k2)[1..] == k2;
    } else {
      var s := k1 + [Dot] + k2;
      assert s[0] == k1[0];
      assert s[1..] == k1[1..] + [Dot] + k2;
      SplitConcat(k1[1..], k2);
    }
  }

  /** Splitting dot-free pieces joined by dots gives the pieces back. */
  lemma {:induction false} SplitJoin(parts: seq<string>)
    requires |parts| >= 1
    requires forall k :: 0 <= k < |parts| ==> Dot !in parts[k]
    ensures Split(JoinDots(parts)) == parts
  {
    SplitNoDot(parts[0]);
    if |parts| > 1 {
      SplitJoin(parts[1..]);
      SplitConcat(parts[0], JoinDots(parts[1..]));
      assert parts == [parts[0]] + parts[1..];
    }
  }

  /** Python's `value[key]` for a string key. */
  function Index(value: Json, key: string): (r: Result<Json, LookupError>)
    ensures r.Success? <==> value.JObject? && key in value.members
    ensures r.Success? ==> r.value == value.members[key]
    ensures value.JObject? && key !in value.members ==> r == Failure(KeyError(key))
    ensures !value.JObject? ==> r == Failure(TypeError)
  {
    match value
    case JObject(m) => if key in m then Success(m[key]) else Failure(KeyError(key))
    case _ => Failure(TypeError)
  }

  /** The pieces looked up one after the other, left to right; the first failing lookup raises. */
  function Resolve(value: Json, keys: seq<string>): Result<Json, LookupError>
  {
    if keys == [] then Success(value)
    else
      match Index(value, keys[0])
      case Failure(e) => Failure(e)
      case Success(v) => Resolve(v, keys[1..])
  }

  /** `__getitem__(key)`: the key split at its dots and resolved from the loaded data. */
  function Lookup(data: Json, key: string): Result<Json, LookupError>
  {
    Resolve(data, Split(key))
  }

  /** `__getitem__`: index by the first piece, then rebind the result to its entry for each further piece. */
  method GetItem(data: Json, key: string) returns (r: Result<Json, LookupError>)
    ensures r == Lookup(data, key)
  {
    var split := Split(key);
    var first := Index(data, split[0]);
    if first.Failure? {
      return Failure(first.error);
    }
    var result := first.value;
    var i := 1;
    while i < |split|
      invariant 1 <= i <= |split|
      invariant Resolve(data, split) == Resolve(result, split[i..])
    {
      var next := Index(result, split[i]);
      if next.Failure? {
        return Failure(next.error);
      }
      result := next.value;
      i := i + 1;
    }
    r := Success(result);
  }

  /** A key with no dot is looked up directly: `self[key] == data[key]`. */
  lemma LookupNoDot(data: Json, key: string)
    requires Dot !in key
    ensures Lookup(data, key) == Index(data, key)
  {
    SplitNoDot(key);
    assert [key][1..] == [];
    match Index(data, key)
    case Failure(e) =>
    case Success(v) => assert Resolve(v, []) == Success(v);
  }

  /** Resolving a concatenation resolves the first keys, then the rest from where they led. */
  lemma {:induction false} ResolveConcat(value: Json, ks1: seq<string>, ks2: seq<string>)
    ensures Resolve(value, ks1 + ks2) == match Resolve(value, ks1)
      case Failure(e) => Failure(e)
      case Success(v) => Resolve(v, ks2)
  {
    if ks1 != [] {
      assert (ks1 + ks2)[0] == ks1[0] && (ks1 + ks2)[1..] == ks1[1..] + ks2;
      match Index(value, ks1[0])
      case Failure(e) =>
      case Success(v) => ResolveConcat(v, ks1[1..], ks2);
    } else {
      assert ks1 + ks2 == ks2;
    }
  }

  /** Lookup composes: `self[k1 + "." + k2]` is `self[k1][k2]` when k2 has no dot, and `self[k1]` read at k2 in general. */
  lemma LookupComposes(data: Json, k1: string, k2: string)
    ensures Lookup(data, k1 + [Dot] + k2) == match Lookup(data, k1)
      case Failure(e) => Failure(e)
      case Success(v) => Lookup(v, k2)
    ensures Dot !in k2 ==> Lookup(data, k1 + [Dot] + k2) == match Lookup(data, k1)
      case Failure(e) => Failure(e)
      case Success(v) => Index(v, k2)
  {
    SplitConcat(k1, k2);
    ResolveConcat(data, Split(k1), Split(k2));
    if Dot !in k2 {
      match Lookup(data, k1)
      case Failure(e) =>
      case Success(v) => LookupNoDot(v, k2);
    }
  }

  /** `"a.b.c"` resolves to `data["a"]["b"]["c"]`. */
  lemma ThreeLevels(data: Json, a: Json, b: Json, c: Json)
    requires data == JObject(map["a" := a]) && a == JObject(map["b" := b]) && b == JObject(map["c" := c])
    ensures Lookup(data, "a.b.c") == Success(c)
  {
    assert "c"[1..] == "" && ".c"[1..] == "c" && "b.c"[1..] == ".c" && ".b.c"[1..] == "b.c" && "a.b.c"[1..] == ".b.c";
    assert "c"[0] != Dot && ".c"[0] == Dot && "b.c"[0] != Dot && ".b.c"[0] == Dot && "a.b.c"[0] != Dot;
    assert Split("") == [""];
    assert ['c'] + "" == "c";
    assert Split("c") == ["c"];
    assert Split(".c") == ["", "c"];
    assert ['b'] + "" == "b" && ['a'] + "" == "a";
    assert Split("b.c") == ["b", "c"];
    assert Split(".b.c") == ["", "b", "c"];
    assert Split("a.b.c") == ["a", "b", "c"];
    assert Resolve(c, []) == Success(c);
    assert Resolve(b, ["c"]) == Success(c);
    assert Resolve(a, ["b", "c"]) == Success(c);
  }

  /**
   * A KeyError names a piece of the key: the first piece whose lookup met an
   * object without it; and an object without the next piece always raises
   * that KeyError.
   */
  lemma {:induction false} KeyErrorIsMissingPiece(value: Json, keys: seq<string>, k: string)
    requires Resolve(value, keys) == Failure(KeyError(k))
    ensures exists i :: 0 <= i < |keys| && keys[i] == k && MissingAt(value, keys, i)
  {
    match Index(value, keys[0])
    case Failure(e) =>
      assert MissingAt(value, keys, 0);
    case Success(v) =>
      KeyErrorIsMissingPiece(v, keys[1..], k);
      var i :| 0 <= i < |keys[1..]| && keys[1..][i] == k && MissingAt(v, keys[1..], i);
      assert keys[..i + 1][1..] == keys[1..][..i];
      assert MissingAt(value, keys, i + 1);
  }

  /** The first i pieces lead to an object that lacks piece i. */
  predicate MissingAt(value: Json, keys: seq<string>, i: int)
    requires 0 <= i < |keys|
  {
    match Resolve(value, keys[..i])
    case Success(JObject(m)) => keys[i] !in m
    case _ => false
  }

  /** The converse: reaching an object that lacks the next piece raises KeyError of that piece. */
  lemma MissingPieceRaises(value: Json, keys: seq<string>, i: int)
    requires 0 <= i < |keys|
    requires MissingAt(value, keys, i)
    ensures Resolve(value, keys) == Failure(KeyError(keys[i]))
  {
    assert keys == keys[..i] + keys[i..];
    ResolveConcat(value, keys[..i], keys[i..]);
  }
}
