/** InstallPairingStore over one Redis: what create stores and what consume hands out. */
module PairingStore {
  import opened Text
  import opened Json
  import opened JsonText
  import opened Pairing

  datatype Grant = Grant(token: string, baseUrl: string)

  /** orjson.dumps({"token": token, "base_url": base_url}) */
  function Payload(g: Grant): string {
    Print(JObject([Member("token", JString(g.token)), Member("base_url", JString(g.baseUrl))]), Compact)
  }

  /** data.get(key, "") of a payload object whose values are strings. */
  function Field(ms: seq<Member>, key: string): string {
    match Get(ms, key)
    case Some(JString(s)) => s
    case _ => ""
  }

  /** What consume makes of the bytes it got. */
  function Decode(raw: string): Option<Grant> {
    match Loads(raw)
    case Some(JObject(ms)) => Some(Grant(Field(ms, "token"), Field(ms, "base_url")))
    case _ => None
  }

  lemma KeysDiffer()
    ensures "token" != "base_url"
  {
    assert "token"[0] == 't' && "base_url"[0] == 'b';
  }

  lemma FieldsOf(g: Grant)
    ensures var ms := [Member("token", JString(g.token)), Member("base_url", JString(g.baseUrl))];
            WellFormed(JObject(ms)) && Field(ms, "token") == g.token && Field(ms, "base_url") == g.baseUrl
  {
    KeysDiffer();
    var ms := [Member("token", JString(g.token)), Member("base_url", JString(g.baseUrl))];
    assert ms[1..] == [Member("base_url", JString(g.baseUrl))];
    assert IndexOf(ms, "token") == 0 && IndexOf(ms, "base_url") == 1;
  }

  /** The stored payload decodes to the grant it was made from. */
  lemma PayloadDecodes(g: Grant)
    ensures Decode(Payload(g)) == Some(g)
  {
    hide Loads, Print, WellFormed, Field;
    FieldsOf(g);
    DumpsLoads(JObject([Member("token", JString(g.token)), Member("base_url", JString(g.baseUrl))]), Compact);
  }

  /** How a call goes: it returns, or raises before or after taking effect. A client without GETDEL raises before. */
  datatype Attempt = Succeeds | RaisesBefore | RaisesAfter

  /** A failing GETDEL is swallowed, a failing transaction is not. */
  datatype Outcome = Handed(grant: Grant) | Nothing | Raised

  function Answer(raw: Option<string>): Outcome {
    match raw
    case Some(r) => (match Decode(r) case Some(g) => Handed(g) case None => Nothing)
    case None => Nothing
  }

  /** One of the two calls takes the key and its reply arrives. */
  predicate Delivers(getdel: Attempt, fallback: Attempt) {
    getdel.Succeeds? || (getdel.RaisesBefore? && fallback.Succeeds?)
  }

  /** Neither call takes effect. */
  predicate Spares(getdel: Attempt, fallback: Attempt) { getdel.RaisesBefore? && fallback.RaisesBefore? }

  class Store {
    var now: nat
    var redis: map<string, Stored>

    /** The live payload under a code. */
    function Live(code: string): Option<string>
      reads this
    {
      if code in redis && now < redis[code].expires then Some(redis[code].payload) else None
    }

    method Create(code: string, g: Grant)
      modifies this`redis
      ensures redis == old(redis)[code := Stored(Payload(g), now + TTL)]
    {
      redis := redis[code := Stored(Payload(g), now + TTL)];
    }

    /** GETDEL, and GET and DEL in one transaction. */
    method Take(code: string) returns (raw: Option<string>)
      modifies this`redis
      ensures raw == old(Live(code)) && redis == old(redis) - {code}
    {
      raw := Live(code);
      redis := redis - {code};
    }

    method Consume(code: string, getdel: Attempt, fallback: Attempt) returns (result: Outcome)
      modifies this`redis
      ensures redis == if code == "" || Spares(getdel, fallback) then old(redis) else old(redis) - {code}
      ensures result ==
                if code == "" then Nothing
                else if Delivers(getdel, fallback) then Answer(old(Live(code)))
                else if fallback.Succeeds? then Nothing
                else Raised
    {
      hide Decode;
      if code == "" {
        return Nothing;
      }
      var raw: Option<string> := None;
      var usedGetdel := false;
      match getdel {
        case Succeeds =>
          raw := Take(code);
          usedGetdel := true;
        case RaisesBefore =>
        case RaisesAfter =>
          var _ := Take(code);
      }
      if !usedGetdel {
        match fallback {
          case Succeeds => raw := Take(code);
          case RaisesBefore => return Raised;
          case RaisesAfter =>
            var _ := Take(code);
            return Raised;
        }
      }
      match raw {
        case None => result := Nothing;
        case Some(r) =>
          var decoded := Decode(r);
          result := if decoded.Some? then Handed(decoded.value) else Nothing;
      }
    }

    /**
     Create, then two consumers one after the other, after some seconds each and however their calls go: the grant is
     handed to the first whose calls deliver it within 600 seconds, to the second only if the first left the key alone,
     and never to both.
     */
    method CreateAndConsume(code: string, g: Grant, wait: nat, first: (Attempt, Attempt), more: nat, second: (Attempt, Attempt))
      returns (a: Outcome, b: Outcome)
      requires code != ""
      modifies this
      ensures a.Handed? <==> Delivers(first.0, first.1) && wait < 600
      ensures b.Handed? <==> Spares(first.0, first.1) && Delivers(second.0, second.1) && wait + more < 600
      ensures (a.Handed? ==> a.grant == g && !b.Handed?) && (b.Handed? ==> b.grant == g)
      ensures code in redis <==> Spares(first.0, first.1) && Spares(second.0, second.1)
    {
      hide Payload, Decode;
      PayloadDecodes(g);
      Create(code, g);
      now := now + wait;
      a := Consume(code, first.0, first.1);
      now := now + more;
      b := Consume(code, second.0, second.1);
    }
  }
}
