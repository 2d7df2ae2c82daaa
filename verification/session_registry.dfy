/** `registered_codes`: which Socket.IO session registered which code. A dict
    from session id (sid) to code, kept in insertion order; lookups by code
    scan it in that order. */
module SessionRegistry {
  import opened Optional
  import opened PyDict

  type Sid = string
  type Code = string
  type Registry = Dict

  /** What every reachable registry satisfies: one entry per sid, and only
      truthy (non-empty) codes stored. */
  predicate Inv(reg: Registry) {
    UniqueKeys(reg) && forall i :: 0 <= i < |reg| ==> reg[i].1 != ""
  }

  /** The registry the server starts with. */
  const Empty: Registry := []

  lemma EmptyInv()
    ensures Inv(Empty)
  {
  }

  /** The REGISTER handler: `code = data.get("code", None)`, and only a truthy
      code is stored under the sender's sid. */
  function Register(reg: Registry, sid: Sid, data: Dict): (r: Registry)
    ensures Inv(reg) ==> Inv(r)
    ensures Truthy(Get(data, "code")) ==> Get(r, sid) == Get(data, "code")
    ensures Truthy(Get(data, "code")) ==> forall s :: s != sid ==> Get(r, s) == Get(reg, s)
    // a sid already registered keeps its place; a new one is appended
    ensures Truthy(Get(data, "code")) && HasKey(reg, sid) ==>
      |r| == |reg| && IndexOf(r, sid) == IndexOf(reg, sid)
    ensures Truthy(Get(data, "code")) && !HasKey(reg, sid) ==>
      r == reg + [(sid, Get(data, "code").value)]
    ensures Truthy(Get(data, "code")) ==>
      forall i :: 0 <= i < |reg| && reg[i].0 != sid ==> r[i] == reg[i]
    ensures !Truthy(Get(data, "code")) ==> r == reg
  {
    var code := Get(data, "code");
    if Truthy(code) then
      Put(reg, sid, code.value)
    else reg
  }

  /** The disconnect handler: `registered_codes.pop(sid, None)`. */
  function Disconnect(reg: Registry, sid: Sid): (r: Registry)
    ensures Inv(reg) ==> Inv(r)
    ensures Inv(reg) ==> Get(r, sid).None?
    ensures Inv(reg) ==> forall s :: s != sid ==> Get(r, s) == Get(reg, s)
    // the other entries keep their relative order
    ensures Inv(reg) ==> r == Without(reg, sid)
    ensures !HasKey(reg, sid) ==> r == reg
  {
    var (rest, _) := Pop(reg, sid);
    assert Inv(reg) ==> Inv(rest) by {
      if Inv(reg) {
        forall i | 0 <= i < |rest| ensures rest[i].1 != "" {
          assert Get(rest, rest[i].0).Some?;
          GetAt(rest, i);
          assert Get(reg, rest[i].0) == Some(rest[i].1);
        }
      }
    }
    rest
  }

  /** Disconnecting twice is disconnecting once. */
  lemma DisconnectIdempotent(reg: Registry, sid: Sid)
    requires Inv(reg)
    ensures Disconnect(Disconnect(reg, sid), sid) == Disconnect(reg, sid)
  {
  }

  /** The scan in the notify handler: the first sid, in registry order, whose
      code equals `code`. */
  function Lookup(reg: Registry, code: Code): (r: Option<Sid>)
    ensures r.Some? ==> exists i :: (0 <= i < |reg| && reg[i] == (r.value, code)
                                     && forall j :: 0 <= j < i ==> reg[j].1 != code)
    ensures r.None? <==> forall i :: 0 <= i < |reg| ==> reg[i].1 != code
  {
    if |reg| == 0 then None
    else if reg[0].1 == code then Some(reg[0].0)
    else
      var r := Lookup(reg[1..], code);
      assert forall i :: 1 <= i < |reg| ==> reg[i] == reg[1..][i - 1];
      r
  }

  /** No code is empty in a reachable registry, so looking up "" never finds a sid. */
  lemma LookupEmptyCode(reg: Registry)
    requires Inv(reg)
    ensures Lookup(reg, "").None?
  {
  }

  /** In a dict, a sid found by code holds exactly that code. */
  lemma LookupAgreesWithGet(reg: Registry, code: Code)
    requires Inv(reg)
    requires Lookup(reg, code).Some?
    ensures Get(reg, Lookup(reg, code).value) == Some(code)
  {
  }

  /** After a sid re-registers with a new code, the old code no longer leads to it. */
  lemma ReRegisterForgetsOldCode(reg: Registry, sid: Sid, data: Dict, previous: Code)
    requires Inv(reg)
    requires Get(reg, sid) == Some(previous)
    requires Truthy(Get(data, "code")) && Get(data, "code").value != previous
    ensures Lookup(Register(reg, sid, data), previous) != Some(sid)
  {
  }
}
