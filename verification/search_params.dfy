/**
  The query of a URL as `URLSearchParams` holds it: a list of name/value
  pairs. The language toggle uses `searchParams.set("lng", …)`.
 */
module SearchParams {
  import opened JsBuiltins

  type Query = seq<(string, string)>

  /** How many pairs carry `name`. */
  function Count(q: Query, name: string): nat {
    if |q| == 0 then 0 else (if q[0].0 == name then 1 else 0) + Count(q[1..], name)
  }

  /** `searchParams.get(name)`: the value of the first pair with that name. */
  function GetParam(q: Query, name: string): Option<string> {
    if |q| == 0 then None
    else if q[0].0 == name then Some(q[0].1)
    else GetParam(q[1..], name)
  }

  /** A pair whose name does not occur earlier is the one `get` finds. */
  lemma {:induction false} GetParamAt(q: Query, j: nat)
    requires j < |q|
    requires forall i :: 0 <= i < j ==> q[i].0 != q[j].0
    ensures GetParam(q, q[j].0) == Some(q[j].1)
  {
    if j > 0 {
      GetParamAt(q[1..], j - 1);
    }
  }

  /** The pairs with any other name, in order. */
  function Others(q: Query, name: string): (r: Query)
    ensures Count(r, name) == 0
  {
    if |q| == 0 then []
    else if q[0].0 == name then Others(q[1..], name)
    else
      var rest := Others(q[1..], name);
      assert ([q[0]] + rest)[1..] == rest;
      [q[0]] + rest
  }

  lemma {:induction false} CountConcat(a: Query, b: Query, name: string)
    ensures Count(a + b, name) == Count(a, name) + Count(b, name)
  {
    if |a| == 0 {
      assert a + b == b;
    } else {
      assert (a + b)[0] == a[0];
      assert (a + b)[1..] == a[1..] + b;
      CountConcat(a[1..], b, name);
    }
  }

  lemma {:induction false} OthersConcat(a: Query, b: Query, name: string)
    ensures Others(a + b, name) == Others(a, name) + Others(b, name)
  {
    if |a| == 0 {
      assert a + b == b;
    } else {
      assert (a + b)[0] == a[0];
      assert (a + b)[1..] == a[1..] + b;
      OthersConcat(a[1..], b, name);
    }
  }

  lemma {:induction false} OthersOfAbsent(q: Query, name: string)
    requires Count(q, name) == 0
    ensures Others(q, name) == q
  {
    if |q| > 0 {
      OthersOfAbsent(q[1..], name);
    }
  }

  /** The position of the first pair with `name`. */
  function FirstIndex(q: Query, name: string): (i: nat)
    requires Count(q, name) > 0
    ensures i < |q| && q[i].0 == name
    ensures forall j :: 0 <= j < i ==> q[j].0 != name
  {
    if q[0].0 == name then 0 else 1 + FirstIndex(q[1..], name)
  }

  /** The first pair with `name` gets `value`; every later pair with `name` is removed. */
  function ReplaceFirst(q: Query, name: string, value: string): (r: Query)
    requires Count(q, name) > 0
    ensures Count(r, name) == 1
    ensures GetParam(r, name) == Some(value)
    ensures Others(r, name) == Others(q, name)
  {
    if q[0].0 == name then
      var rest := Others(q[1..], name);
      OthersOfAbsent(rest, name);
      [(name, value)] + rest
    else
      [q[0]] + ReplaceFirst(q[1..], name, value)
  }

  /** The new pair takes the first pair's place: what comes before it is untouched. */
  lemma {:induction false} ReplaceFirstPlace(q: Query, name: string, value: string)
    requires Count(q, name) > 0
    ensures var i := FirstIndex(q, name);
      ReplaceFirst(q, name, value) == q[..i] + [(name, value)] + Others(q[i + 1..], name)
  {
    if q[0].0 != name {
      var i' := FirstIndex(q[1..], name);
      ReplaceFirstPlace(q[1..], name, value);
      var pre, rest := q[1..][..i'], Others(q[1..][i' + 1..], name);
      assert q[..i' + 1] == [q[0]] + pre;
      assert q[1..][i' + 1..] == q[i' + 2..];
      ConcatAssoc([q[0]], pre + [(name, value)], rest);
      ConcatAssoc([q[0]], pre, [(name, value)]);
    }
  }

  /**
    `searchParams.set(name, value)` as the URL Standard defines it: if a pair
    with `name` exists, the first one takes `value` and the others are
    removed; otherwise the pair is appended. Afterwards there is exactly one
    pair with `name`, it carries `value`, and the pairs with other names are
    unchanged and in their old order.
   */
  function SetParam(q: Query, name: string, value: string): (r: Query)
    ensures Count(r, name) == 1
    ensures GetParam(r, name) == Some(value)
    ensures Others(r, name) == Others(q, name)
    ensures Count(q, name) == 0 ==> r == q + [(name, value)]
    ensures Count(q, name) > 0 ==>
      var i := FirstIndex(q, name);
      r == q[..i] + [(name, value)] + Others(q[i + 1..], name)
  {
    if Count(q, name) > 0 then
      ReplaceFirstPlace(q, name, value);
      ReplaceFirst(q, name, value)
    else
      CountConcat(q, [(name, value)], name);
      OthersConcat(q, [(name, value)], name);
      OthersOfAbsent(q, name);
      GetAppended(q, name, value);
      q + [(name, value)]
  }

  lemma {:induction false} GetAppended(q: Query, name: string, value: string)
    requires Count(q, name) == 0
    ensures GetParam(q + [(name, value)], name) == Some(value)
  {
    if |q| == 0 {
      assert q + [(name, value)] == [(name, value)];
    } else {
      assert (q + [(name, value)])[1..] == q[1..] + [(name, value)];
      GetAppended(q[1..], name, value);
    }
  }

  /** Setting the same parameter to the same value twice is the same as once. */
  lemma SetParamIdempotent(q: Query, name: string, value: string)
    ensures SetParam(SetParam(q, name, value), name, value) == SetParam(q, name, value)
  {
    var r := SetParam(q, name, value);
    SetOfSingle(r, name, value);
  }

  /** When `name` already occurs once with `value`, setting it changes nothing. */
  lemma {:induction false} SetOfSingle(q: Query, name: string, value: string)
    requires Count(q, name) == 1 && GetParam(q, name) == Some(value)
    ensures SetParam(q, name, value) == q
  {
    ReplaceFirstOfSingle(q, name, value);
  }

  lemma {:induction false} ReplaceFirstOfSingle(q: Query, name: string, value: string)
    requires Count(q, name) == 1 && GetParam(q, name) == Some(value)
    ensures ReplaceFirst(q, name, value) == q
  {
    if q[0].0 == name {
      OthersOfAbsent(q[1..], name);
      assert q == [(name, value)] + q[1..];
    } else {
      ReplaceFirstOfSingle(q[1..], name, value);
    }
  }
}
