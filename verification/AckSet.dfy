/** The set of answered callback ids: a callback is acknowledged to Telegram once while its id is
    remembered, and the oldest id is forgotten when more than `LIMIT` are held. */
module AckSet {

  const LIMIT := 4000

  /** The ids held, oldest first, and every id that went to Telegram. */
  datatype Acks = Acks(answered: seq<string>, sent: seq<string>)

  /** The oldest id is dropped from a set that has grown past the limit, but not if it is empty:
      an empty string reads as no id. */
  function Evict(answered: seq<string>): seq<string> {
    if |answered| > LIMIT && answered[0] != "" then answered[1..] else answered
  }

  function Ack(s: Acks, id: string): Acks {
    if id in s.answered then s else Acks(Evict(s.answered + [id]), s.sent + [id])
  }

  function AckAll(ids: seq<string>): Acks {
    if ids == [] then Acks([], []) else Ack(AckAll(ids[..|ids| - 1]), ids[|ids| - 1])
  }

  // ----- What the set holds

  /** The first place of the empty id in a list, or its length. */
  function EmptyAt(sent: seq<string>): (p: nat)
    ensures p <= |sent| && (p < |sent| ==> sent[p] == "") && forall q | 0 <= q < p :: sent[q] != ""
  {
    if sent == [] then 0
    else if sent[0] == "" then 0
    else 1 + EmptyAt(sent[1..])
  }

  /** Where the remembered part of the sent ids begins: `LIMIT` from the end, but never past an
      empty id. */
  function Horizon(sent: seq<string>): (h: nat)
    ensures h <= |sent|
  {
    if |sent| <= LIMIT then 0
    else if EmptyAt(sent) < |sent| - LIMIT then EmptyAt(sent)
    else |sent| - LIMIT
  }

  function Remembered(sent: seq<string>): seq<string> {
    sent[Horizon(sent)..]
  }

  predicate Distinct(s: seq<string>) {
    forall a, b | 0 <= a < b < |s| :: s[a] != s[b]
  }

  lemma {:induction false} EmptyAtExtends(sent: seq<string>, id: string)
    ensures EmptyAt(sent + [id]) == if EmptyAt(sent) < |sent| || id == "" then EmptyAt(sent) else |sent| + 1
  {
    if sent == [] {
      assert EmptyAt([id]) == if id == "" then 0 else 1;
    } else if sent[0] != "" {
      EmptyAtExtends(sent[1..], id);
      assert (sent + [id])[1..] == sent[1..] + [id];
    }
  }

  /** The horizon moves exactly when the oldest remembered id is evicted. */
  lemma HorizonMoves(sent: seq<string>, id: string)
    ensures var h, all := Horizon(sent), sent + [id];
            Horizon(all) == if |all| - h > LIMIT && all[h] != "" then h + 1 else h
  {
    EmptyAtExtends(sent, id);
    var p := EmptyAt(sent);
    assert p < |sent| ==> (sent + [id])[p] == "";
  }

  lemma AckKeepsRemembered(s: Acks, id: string)
    requires s.answered == Remembered(s.sent) && Distinct(s.answered)
    ensures Ack(s, id).answered == Remembered(Ack(s, id).sent) && Distinct(Ack(s, id).answered)
  {
    if id !in s.answered {
      HorizonMoves(s.sent, id);
      var h, all := Horizon(s.sent), s.sent + [id];
      hide Horizon;
      assert s.answered + [id] == all[h..];
      assert all[h..][0] == all[h];
      assert |all| > h + 1 ==> all[h..][1..] == all[h + 1..];
    }
  }

  /** The set is at every moment the remembered part of what was sent, in order, each id once. */
  lemma {:induction false} HoldsRemembered(ids: seq<string>)
    ensures AckAll(ids).answered == Remembered(AckAll(ids).sent) && Distinct(AckAll(ids).answered)
  {
    if ids != [] {
      HoldsRemembered(ids[..|ids| - 1]);
      AckKeepsRemembered(AckAll(ids[..|ids| - 1]), ids[|ids| - 1]);
    }
  }

  /** The last `LIMIT` ids sent, or all of them. */
  function Latest(sent: seq<string>): seq<string> {
    if |sent| <= LIMIT then sent else sent[|sent| - LIMIT..]
  }

  /** The set is the last `LIMIT` ids exactly while no empty id is among those it should have
      forgotten; after that it forgets nothing more. */
  lemma LatestIff(ids: seq<string>)
    ensures var s := AckAll(ids);
            s.answered == Latest(s.sent) <==> (|s.sent| <= LIMIT || "" !in s.sent[..|s.sent| - LIMIT])
  {
    HoldsRemembered(ids);
    var sent := AckAll(ids).sent;
    if |sent| > LIMIT {
      var p := EmptyAt(sent);
      var due := sent[..|sent| - LIMIT];
      if p < |sent| - LIMIT {
        assert due[p] == "";
        assert |sent[p..]| != |Latest(sent)|;
      } else {
        assert forall q | 0 <= q < |due| :: due[q] == sent[q] != "";
      }
    }
  }

  lemma {:induction false} SentComesFromIds(ids: seq<string>, id: string)
    requires id in AckAll(ids).sent
    ensures id in ids
  {
    if id != ids[|ids| - 1] {
      SentComesFromIds(ids[..|ids| - 1], id);
    }
  }

  /** Callers that never pass an empty id, as the delivery of messages does, get exactly the last
      `LIMIT`. */
  lemma NonEmptyIdsKeepLatest(ids: seq<string>)
    requires "" !in ids
    ensures AckAll(ids).answered == Latest(AckAll(ids).sent)
  {
    LatestIff(ids);
    if "" in AckAll(ids).sent {
      SentComesFromIds(ids, "");
    }
  }

  lemma {:induction false} DifferentIdsAreSent(ids: seq<string>)
    requires Distinct(ids)
    ensures AckAll(ids).sent == ids
  {
    if ids != [] {
      var init, last := ids[..|ids| - 1], ids[|ids| - 1];
      DifferentIdsAreSent(init);
      HoldsRemembered(init);
      assert last !in init;
      assert init + [last] == ids;
    }
  }

  /** An acknowledgement of the empty id followed by `LIMIT` others leaves one id too many. */
  lemma EmptyIdIsKept() returns (ids: seq<string>)
    ensures |AckAll(ids).answered| == 4001
  {
    ids := seq(LIMIT + 1, j requires 0 <= j => seq(j, _ => 'a'));
    assert forall a, b | 0 <= a < b < |ids| :: |ids[a]| == a && |ids[b]| == b;
    DifferentIdsAreSent(ids);
    HoldsRemembered(ids);
    assert ids[0] == "";
    assert EmptyAt(ids) == 0;
  }

  // ----- When an id is sent again

  /** Everything sent was sent by some acknowledgement that did not find it in the set. */
  lemma {:induction false} SentByAnAck(ids: seq<string>, b: nat) returns (k: nat)
    requires b < |AckAll(ids).sent|
    ensures k < |ids| && AckAll(ids[..k]).sent == AckAll(ids).sent[..b]
    ensures ids[k] == AckAll(ids).sent[b] && ids[k] !in AckAll(ids[..k]).answered
  {
    var n := |ids| - 1;
    var before := AckAll(ids[..n]);
    if b < |before.sent| {
      k := SentByAnAck(ids[..n], b);
      assert ids[..n][..k] == ids[..k];
      assert AckAll(ids).sent[..|before.sent|] == before.sent;
      assert AckAll(ids).sent[..b] == before.sent[..b];
    } else {
      k := n;
      assert AckAll(ids).sent[..b] == before.sent;
    }
  }

  /** An id goes to Telegram a second time only after `LIMIT` different other ids went in between. */
  lemma SentAgainOnlyAfterLimit(ids: seq<string>, a: nat, b: nat)
    requires a < b < |AckAll(ids).sent| && AckAll(ids).sent[a] == AckAll(ids).sent[b]
    ensures a + 4000 < b
    ensures var between := AckAll(ids).sent[b - 4000..b]; Distinct(between) && AckAll(ids).sent[b] !in between
  {
    var sent := AckAll(ids).sent;
    var k := SentByAnAck(ids, b);
    HoldsRemembered(ids[..k]);
    var h := Horizon(sent[..b]);
    var held := sent[..b][h..];
    assert forall q | h <= q < b :: sent[q] == held[q - h];
    assert a < h;
    var between := sent[b - LIMIT..b];
    assert forall q | 0 <= q < LIMIT :: between[q] == held[b - LIMIT - h + q];
  }

  // ----- The object

  class Answered {
    var answered: seq<string>
    ghost var sent: seq<string>

    ghost function State(): Acks
      reads this
    {
      Acks(answered, sent)
    }

    constructor ()
      ensures State() == AckAll([])
    {
      answered, sent := [], [];
    }

    /** Whether the id goes to Telegram. */
    method Acknowledge(id: string) returns (asked: bool)
      modifies this
      ensures State() == Ack(old(State()), id) && asked == (id !in old(answered))
    {
      if id in answered {
        return false;
      }
      answered := answered + [id];
      if |answered| > LIMIT {
        var oldest := answered[0];
        if oldest != "" {
          answered := answered[1..];
        }
      }
      sent := sent + [id];
      return true;
    }
  }
}
