/** Webhook admission and its bounded replay guard. Whether a request's HMAC matches and what the
    redactor shows of its body are inputs. */
module Webhook {
  import opened Foundation
  import Text

  const MAX_BODY := 1024 * 1024
  const MAX_SEEN := 4096
  const MAX_DELIVERY_ID := 128
  const MAX_SUMMARY := 8 * 1024

  type DeliveryId = seq<byte>

  datatype EventKind = Issue | PullRequest | CheckSuite | IssueComment | Push | Other

  datatype Request = Request(event: string, delivery: DeliveryId, authentic: bool, bodyLen: nat, visible: string)

  datatype Reject = TooLarge | EmptyDelivery | DeliveryIdTooLong | BadSignature | Replay

  datatype Envelope = Envelope(kind: EventKind, delivery: DeliveryId, payload: string)

  function ParseKind(event: string): EventKind {
    if event == "issues" then Issue
    else if event == "pull_request" then PullRequest
    else if event == "check_suite" || event == "check_run" then CheckSuite
    else if event == "issue_comment" || event == "pull_request_review_comment" then IssueComment
    else if event == "push" then Push
    else Other
  }

  /** The checks a request must pass before the replay guard is asked. */
  function Screen(req: Request): Option<Reject> {
    if req.bodyLen > MAX_BODY then Some(TooLarge)
    else if req.delivery == [] then Some(EmptyDelivery)
    else if |req.delivery| > MAX_DELIVERY_ID then Some(DeliveryIdTooLong)
    else if !req.authentic then Some(BadSignature)
    else None
  }

  // ----- the reference: all deliveries accepted so far, and a window over the last of them -----

  function LastN<T>(s: seq<T>, n: nat): seq<T> {
    if |s| <= n then s else s[|s| - n..]
  }

  /** The answer a request gets when `accepted` are the deliveries accepted so far. */
  function Answer(accepted: seq<DeliveryId>, req: Request): Result<Envelope, Reject> {
    match Screen(req)
    case Some(why) => Err(why)
    case None =>
      if req.delivery in LastN(accepted, MAX_SEEN) then Err(Replay)
      else Ok(Envelope(ParseKind(req.event), req.delivery, Text.Fit(req.visible, MAX_SUMMARY)))
  }

  /** An accepted request is authentic and within every bound, and its envelope shows no more of
      the body than the redactor does and no more than 8 KiB, cut only where the bound falls. */
  lemma AcceptedIsBounded(accepted: seq<DeliveryId>, req: Request)
    ensures Answer(accepted, req).Ok? ==>
              var env := Answer(accepted, req).value;
              && req.authentic && req.bodyLen <= 1_048_576
              && env.delivery == req.delivery && 0 < |env.delivery| <= 128
              && env.payload <= req.visible && Text.Bytes(env.payload) <= 8192
              && (env.payload == req.visible <==> Text.Bytes(req.visible) <= 8192)
  {
    assert Text.Bytes(req.visible) <= MAX_SUMMARY ==> Text.Fit(req.visible, MAX_SUMMARY) == req.visible;
  }

  /** The id is one of the last 4096 accepted. */
  ghost predicate Recent(accepted: seq<DeliveryId>, id: DeliveryId) {
    exists j | 0 <= j < |accepted| :: |accepted| - 4096 <= j && accepted[j] == id
  }

  lemma RecentIs(accepted: seq<DeliveryId>, id: DeliveryId)
    ensures id in LastN(accepted, MAX_SEEN) <==> Recent(accepted, id)
  {
    var w := LastN(accepted, MAX_SEEN);
    var d := |accepted| - |w|;
    forall i | 0 <= i < |w| ensures w[i] == accepted[d + i] {
    }
    if Recent(accepted, id) {
      var j :| 0 <= j < |accepted| && |accepted| - 4096 <= j && accepted[j] == id;
      assert w[j - d] == id;
    }
  }

  /** When a request is accepted, and for which reason it is rejected otherwise: the first of its
      size, an empty id, an id over 128 bytes, its signature and a replay that applies. */
  lemma AnswerIs(accepted: seq<DeliveryId>, req: Request)
    ensures var r, size, id := Answer(accepted, req), req.bodyLen, |req.delivery|;
            && (r == Err(TooLarge) <==> size > 1_048_576)
            && (r == Err(EmptyDelivery) <==> size <= 1_048_576 && id == 0)
            && (r == Err(DeliveryIdTooLong) <==> size <= 1_048_576 && id > 128)
            && (r == Err(BadSignature) <==> size <= 1_048_576 && 1 <= id <= 128 && !req.authentic)
            && (r == Err(Replay) <==>
                  size <= 1_048_576 && 1 <= id <= 128 && req.authentic && Recent(accepted, req.delivery))
            && (r.Ok? <==> size <= 1_048_576 && 1 <= id <= 128 && req.authentic && !Recent(accepted, req.delivery))
            && (r.Ok? ==> KindNamed(r.value.kind, req.event))
  {
    hide LastN, Recent;
    RecentIs(accepted, req.delivery);
  }

  /** The event names each kind stands for. */
  predicate KindNamed(kind: EventKind, event: string) {
    match kind
    case Issue => event == "issues"
    case PullRequest => event == "pull_request"
    case CheckSuite => event == "check_suite" || event == "check_run"
    case IssueComment => event == "issue_comment" || event == "pull_request_review_comment"
    case Push => event == "push"
    case Other =>
      && event != "issues" && event != "pull_request" && event != "check_suite" && event != "check_run"
      && event != "issue_comment" && event != "pull_request_review_comment" && event != "push"
  }

  function AcceptedBy(reqs: seq<Request>): seq<DeliveryId> {
    if reqs == [] then [] else
    var before := AcceptedBy(reqs[..|reqs| - 1]);
    if Answer(before, reqs[|reqs| - 1]).Ok? then before + [reqs[|reqs| - 1].delivery] else before
  }

  function Answers(reqs: seq<Request>): seq<Result<Envelope, Reject>> {
    if reqs == [] then [] else
    Answers(reqs[..|reqs| - 1]) + [Answer(AcceptedBy(reqs[..|reqs| - 1]), reqs[|reqs| - 1])]
  }

  // ----- the guard -----

  /** A FIFO of recent ids beside a set of the same ids. */
  class ReplayGuard {
    var order: seq<DeliveryId>
    var members: set<DeliveryId>

    ghost predicate Valid()
      reads this
    {
      members == (set d | d in order) && NoRepeats(order) && |order| <= MAX_SEEN
    }

    constructor ()
      ensures Valid() && order == []
    {
      order, members := [], {};
    }

    /** Records `id` unless it is remembered, forgetting the oldest when full. */
    method Accept(id: DeliveryId) returns (ok: bool)
      requires Valid()
      modifies this
      ensures Valid()
      ensures ok <==> id !in old(order)
      ensures order == if ok then LastN(old(order) + [id], MAX_SEEN) else old(order)
    {
      if id in members {
        return false;
      }
      ghost var was := order;
      if |order| >= MAX_SEEN {
        var oldest := order[0];
        order := order[1..];
        members := members - {oldest};
        assert was == [oldest] + order;
        assert members == set d | d in order;
        assert (was + [id])[1..] == order + [id];
      }
      order := order + [id];
      members := members + {id};
      ok := true;
    }
  }

  class WebhookVerifier {
    const seen: ReplayGuard

    constructor ()
      ensures fresh(seen) && seen.Valid() && seen.order == []
    {
      seen := new ReplayGuard();
    }

    /** Size, delivery id and signature are checked before the guard is touched. */
    method Verify(req: Request, ghost accepted: seq<DeliveryId>) returns (r: Result<Envelope, Reject>)
      requires seen.Valid() && seen.order == LastN(accepted, MAX_SEEN)
      modifies seen
      ensures seen.Valid() && r == Answer(accepted, req)
      ensures seen.order == LastN(if r.Ok? then accepted + [req.delivery] else accepted, MAX_SEEN)
    {
      if req.bodyLen > MAX_BODY {
        return Err(TooLarge);
      }
      if req.delivery == [] {
        return Err(EmptyDelivery);
      }
      if |req.delivery| > MAX_DELIVERY_ID {
        return Err(DeliveryIdTooLong);
      }
      if !req.authentic {
        return Err(BadSignature);
      }
      WindowSlides(accepted, req.delivery, MAX_SEEN);
      var ok := seen.Accept(req.delivery);
      if !ok {
        return Err(Replay);
      }
      r := Ok(Envelope(ParseKind(req.event), req.delivery, Text.Fit(req.visible, MAX_SUMMARY)));
    }

    /** A whole run of requests gets exactly the reference's answers, and afterwards the guard
        remembers exactly the last deliveries accepted. */
    method VerifyAll(reqs: seq<Request>) returns (answers: seq<Result<Envelope, Reject>>)
      requires seen.Valid() && seen.order == []
      modifies seen
      ensures answers == Answers(reqs)
      ensures seen.Valid() && seen.order == LastN(AcceptedBy(reqs), MAX_SEEN)
    {
      hide Answer, LastN;
      answers := [];
      assert LastN<DeliveryId>([], MAX_SEEN) == [] by { EmptyWindow(); }
      for i := 0 to |reqs|
        invariant seen.Valid()
        invariant answers == Answers(reqs[..i])
        invariant seen.order == LastN(AcceptedBy(reqs[..i]), MAX_SEEN)
      {
        TakeSnoc(reqs, i);
        var r := Verify(reqs[i], AcceptedBy(reqs[..i]));
        answers := answers + [r];
      }
      assert reqs[..|reqs|] == reqs;
    }
  }

  lemma EmptyWindow()
    ensures LastN<DeliveryId>([], MAX_SEEN) == []
  {
  }

  lemma WindowSlides<T>(s: seq<T>, x: T, n: nat)
    requires n > 0
    ensures LastN(LastN(s, n) + [x], n) == LastN(s + [x], n)
  {
  }

  // ----- what the window guarantees -----

  lemma InWindow<T>(s: seq<T>, n: nat, i: nat)
    requires i < |s|
    ensures |s| - n <= i ==> s[i] in LastN(s, n)
  {
    if |s| - n <= i {
      assert s[i] == LastN(s, n)[i - (|s| - |LastN(s, n)|)];
    }
  }

  lemma {:induction false} SpacedAccepts(reqs: seq<Request>, i: nat, j: nat)
    requires i < j < |AcceptedBy(reqs)| && AcceptedBy(reqs)[i] == AcceptedBy(reqs)[j]
    ensures j - i > MAX_SEEN
  {
    hide Screen, ParseKind;
    var front := reqs[..|reqs| - 1];
    var before := AcceptedBy(front);
    if j < |before| {
      SpacedAccepts(front, i, j);
    } else {
      InWindow(before, MAX_SEEN, i);
    }
  }

  /** A delivery is accepted again only after more than 4096 others; within the window none repeats. */
  lemma AcceptedApart(reqs: seq<Request>)
    ensures forall i, j | 0 <= i < j < |AcceptedBy(reqs)| ::
              AcceptedBy(reqs)[i] == AcceptedBy(reqs)[j] ==> j - i > 4096
    ensures NoRepeats(LastN(AcceptedBy(reqs), MAX_SEEN))
  {
    hide AcceptedBy;
    forall i, j | 0 <= i < j < |AcceptedBy(reqs)| && AcceptedBy(reqs)[i] == AcceptedBy(reqs)[j]
      ensures j - i > MAX_SEEN
    {
      SpacedAccepts(reqs, i, j);
    }
  }
}
