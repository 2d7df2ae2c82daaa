/** The query string of a request to the notify endpoint, as aiohttp hands it
    over: parameters in the order they appear, where a name may repeat. */
module Query {
  import opened Optional
  import opened PyDict

  type Params = seq<(string, string)>

  /** `request.query.get(name, None)`: the FIRST value given for `name`. */
  function QueryGet(q: Params, name: string): (r: Option<string>)
    ensures r.None? <==> forall i :: 0 <= i < |q| ==> q[i].0 != name
    ensures r.Some? ==> exists i :: (0 <= i < |q| && q[i] == (name, r.value)
                                     && forall j :: 0 <= j < i ==> q[j].0 != name)
  {
    if |q| == 0 then None
    else if q[0].0 == name then Some(q[0].1)
    else
      var r := QueryGet(q[1..], name);
      assert forall i :: 1 <= i < |q| ==> q[i] == q[1..][i - 1];
      r
  }

  /** Reference: the LAST value given for `name`. */
  function LastValue(q: Params, name: string): (r: Option<string>)
    ensures r.None? <==> forall i :: 0 <= i < |q| ==> q[i].0 != name
  {
    if |q| == 0 then None
    else if q[|q| - 1].0 == name then Some(q[|q| - 1].1)
    else LastValue(q[..|q| - 1], name)
  }

  /** Reference: the names the query gives, each once, in order of first appearance. */
  function Names(q: Params): (ns: seq<string>)
    ensures forall name :: name in ns <==> exists i :: 0 <= i < |q| && q[i].0 == name
  {
    if |q| == 0 then []
    else
      var p := Names(q[..|q| - 1]);
      var n := q[|q| - 1].0;
      assert forall i :: 0 <= i < |q| - 1 ==> q[..|q| - 1][i] == q[i];
      if n in p then p else p + [n]
  }

  /** The payload of a notification: `data[k] = v` for every `(k, v)` of the
      query in order, starting from an empty dict. */
  function BuildPayload(q: Params): (data: Dict)
    ensures UniqueKeys(data)
    ensures forall name :: Get(data, name) == LastValue(q, name)
    ensures |data| <= |q|
  {
    if |q| == 0 then []
    else
      var last := q[|q| - 1];
      Put(BuildPayload(q[..|q| - 1]), last.0, last.1)
  }

  /** Each name of the payload sits where the name first appeared in the query,
      however often it is repeated later. */
  lemma {:induction false} PayloadOrder(q: Params)
    ensures |BuildPayload(q)| == |Names(q)|
    ensures forall i :: 0 <= i < |Names(q)| ==> BuildPayload(q)[i].0 == Names(q)[i]
  {
    if |q| > 0 {
      var p := q[..|q| - 1];
      var last := q[|q| - 1];
      PayloadOrder(p);
      var prev := BuildPayload(p);
      assert HasKey(prev, last.0) <==> last.0 in Names(p) by {
        assert HasKey(prev, last.0) <==> LastValue(p, last.0).Some?;
      }
    }
  }

  /** When no parameter is repeated the payload is the query itself: the same
      parameters, values and order. */
  lemma {:induction false} PayloadOfDistinctQuery(q: Params)
    requires UniqueKeys(q)
    ensures BuildPayload(q) == q
  {
    if |q| > 0 {
      var p := q[..|q| - 1];
      var last := q[|q| - 1];
      assert q == p + [last];
      assert UniqueKeys(p) && !HasKey(p, last.0) by {
        forall j | 0 <= j < |p| ensures p[j] == q[j] {}
      }
      PayloadOfDistinctQuery(p);
      assert BuildPayload(q) == Put(p, last.0, last.1);
    }
  }

  /** When no parameter is repeated, the first and the last value of a name agree. */
  lemma {:induction false} FirstIsLastWhenDistinct(q: Params, name: string)
    requires UniqueKeys(q)
    ensures QueryGet(q, name) == LastValue(q, name)
  {
    PayloadOfDistinctQuery(q);
    match QueryGet(q, name)
    case None =>
      assert !HasKey(q, name);
    case Some(v) =>
      var i :| 0 <= i < |q| && q[i] == (name, v);
      GetAt(q, i);
  }

  /** A repeated name: the value read by `get` and the value forwarded in the
      payload differ. */
  lemma RepeatedNameDiverges()
    ensures var q := [("code", "a"), ("event", "ping"), ("code", "b")];
      QueryGet(q, "code") == Some("a") && Get(BuildPayload(q), "code") == Some("b")
  {
  }
}
