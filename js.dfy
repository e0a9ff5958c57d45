/**
  The few pieces of JavaScript the map relies on: JSON-serialisable values,
  truthiness of the arguments it tests, and `Object.keys`.
*/
module Js {
  import opened Wrappers

  /**
    A JSON-serialisable value. `JSON.stringify` followed by `JSON.parse` is
    the identity on it, so a value read back is structurally equal to the one
    written. Numbers are integers in this model.
  */
  datatype Value =
    | Null
    | Bool(b: bool)
    | Number(n: int)
    | Str(s: string)
    | Array(elems: seq<Value>)
    | Object(props: map<string, Value>)

  /** A string argument that may be `undefined`, read in a boolean context. */
  predicate TruthyString(s: Option<string>)
  {
    s.Some? && s.value != ""
  }

  /** A number argument that may be `undefined`, read in a boolean context: 0 is falsy. */
  predicate TruthyNumber(n: Option<int>)
  {
    n.Some? && n.value != 0
  }

  /** `s || fallback` for a string argument. */
  function OrElse(s: Option<string>, fallback: string): string
  {
    if TruthyString(s) then s.value else fallback
  }

  /** The text string concatenation produces for an argument that may be `undefined`. */
  function Text(s: Option<string>): string
  {
    if s.Some? then s.value else "undefined"
  }

  /** No key occurs twice. */
  predicate Distinct(ks: seq<string>)
  {
    forall i, j :: 0 <= i < j < |ks| ==> ks[i] != ks[j]
  }

  /**
    `Object.keys(obj)`: every own key of the object exactly once. The order in
    which the engine lists them is not modelled.
  */
  method ObjectKeys<V>(obj: map<string, V>) returns (ks: seq<string>)
    ensures Distinct(ks)
    ensures forall k :: k in ks <==> k in obj
    ensures |ks| == |obj|
  {
    var rest := obj.Keys;
    ks := [];
    while rest != {}
      invariant rest <= obj.Keys
      invariant Distinct(ks)
      invariant forall k :: k in ks <==> k in obj && k !in rest
      invariant |ks| + |rest| == |obj|
      decreases rest
    {
      var k :| k in rest;
      ks := ks + [k];
      rest := rest - {k};
    }
  }
}
