/**
 * The weather provider's decoded JSON body, as Python's `json` module hands it to the
 * agent, with the two Python operations the agent applies to it: truthiness and `str()`.
 */
module Json {
  import opened Wrappers
  import Text

  /**
   * A decoded JSON value. A number carries its Python `str()` text (an `int` such as
   * "21" or a `float` such as "21.5"); an object keeps its members in document order.
   */
  datatype Json =
    | JNull
    | JBool(b: bool)
    | JNum(text: string)
    | JStr(s: string)
    | JArr(items: seq<Json>)
    | JObj(members: seq<(string, Json)>)

  /** Python's `not value`: None, False, zero, and empty strings, lists and dicts. */
  predicate Falsy(j: Json) {
    match j
    case JNull => true
    case JBool(b) => !b
    case JNum(t) => t == "0" || t == "0.0" || t == "-0.0"
    case JStr(s) => s == []
    case JArr(items) => items == []
    case JObj(members) => members == []
  }

  /** Python's `value or fallback`: a true value is kept, a false one gives way. */
  function Or(j: Json, fallback: Json): (r: Json)
    ensures r == j || r == fallback
    ensures !Falsy(j) ==> r == j
    ensures !Falsy(fallback) ==> !Falsy(r)
  {
    if Falsy(j) then fallback else j
  }

  /**
   * The member `key` of a decoded object. `json.loads` keeps the last of repeated keys,
   * so this is the last binding of `key`, and None when there is none.
   */
  function Member(members: seq<(string, Json)>, key: string): (r: Option<Json>)
    ensures r.None? <==> forall i :: 0 <= i < |members| ==> members[i].0 != key
    ensures r.Some? ==> exists i :: 0 <= i < |members| && members[i] == (key, r.value) &&
                                    forall j :: i < j < |members| ==> members[j].0 != key
  {
    if members == [] then None
    else if members[|members| - 1].0 == key then Some(members[|members| - 1].1)
    else Member(members[..|members| - 1], key)
  }

  /** Python's `d.get(key, default)` on a dict `d`. */
  function Get(members: seq<(string, Json)>, key: string, default: Json): Json {
    Member(members, key).GetOr(default)
  }

  /** Python's `str(value)`: a string as it is, anything else as its `repr()`. */
  function Show(j: Json): (r: string)
    ensures j.JStr? ==> r == j.s
    ensures !j.JStr? && !j.JNum? ==> r != []
    decreases j, 1
  {
    match j
    case JStr(s) => s
    case _ => Repr(j)
  }

  /**
   * The keys of a decoded object in the order of their first binding: the keys of the
   * dict `json.loads` builds, each once.
   */
  function Keys(members: seq<(string, Json)>): (keys: seq<string>)
    ensures forall k :: k in keys <==> exists i :: 0 <= i < |members| && members[i].0 == k
    ensures forall i, j :: 0 <= i < j < |keys| ==> keys[i] != keys[j]
  {
    if members == [] then []
    else
      var init := Keys(members[..|members| - 1]);
      var k := members[|members| - 1].0;
      assert forall i :: 0 <= i < |members| - 1 ==> members[..|members| - 1][i] == members[i];
      if k in init then init else init + [k]
  }

  /** The value a dict holds under one of its keys lies inside the object. */
  lemma MemberBelow(members: seq<(string, Json)>, key: string)
    requires Member(members, key).Some?
    ensures Member(members, key).value < JObj(members)
  {
    var i :| 0 <= i < |members| && members[i] == (key, Member(members, key).value);
    assert members[i].1 < members[i];
  }

  /**
   * Python's `repr(value)`: None, True, False and numbers as `str()` gives them, strings
   * in single quotes, lists as `[a, b]` and dicts as `{'k': v}`, each key once with its
   * last value.
   */
  function Repr(j: Json): (r: string)
    ensures !j.JNum? ==> r != []
    ensures j.JStr? ==> |r| == |j.s| + 2 && r[0] == '\'' && r[|r| - 1] == '\''
    ensures j.JStr? ==> forall i {:trigger j.s[i]} :: 0 <= i < |j.s| ==> r[i + 1] == j.s[i]
    decreases j, 0
  {
    match j
    case JNull => "None"
    case JBool(b) => if b then "True" else "False"
    case JNum(t) => t
    case JStr(s) => "'" + s + "'"
    case JArr(items) =>
      "[" + Text.Join(", ", seq(|items|, i requires 0 <= i < |items| => Repr(items[i]))) + "]"
    case JObj(members) =>
      var keys := Keys(members);
      "{" + Text.Join(", ", seq(|keys|, i requires 0 <= i < |keys| =>
        assert keys[i] in keys;
        MemberBelow(members, keys[i]);
        "'" + keys[i] + "': " + Repr(Member(members, keys[i]).value))) + "}"
  }

  /** A repeated key is shown once, with the value of its last binding: `{'a': 2}`. */
  lemma RepeatedKeyShownOnce()
    ensures Repr(JObj([("a", JNum("1")), ("a", JNum("2"))])) == "{'a': 2}"
  {
    var members := [("a", JNum("1")), ("a", JNum("2"))];
    assert members[..1][..0] == [];
    assert Keys(members[..1]) == ["a"];
    assert Keys(members) == ["a"];
    assert Member(members, "a") == Some(JNum("2"));
    assert Repr(JNum("2")) == "2";
    assert "'" + "a" + "': " + "2" == "'a': 2";
    var parts := seq(1, i requires 0 <= i < 1 =>
      "'" + Keys(members)[i] + "': " + Repr(Member(members, Keys(members)[i]).value));
    assert parts[0] == "'a': 2";
    assert Text.Join(", ", parts) == "'a': 2";
  }
}
