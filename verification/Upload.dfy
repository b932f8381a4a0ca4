/** The per-request state of src/http/http.c: the server library calls the access handler once
    to open a request, once for each piece of the upload and once more at its end, and then
    reports completion. */
module Upload {
  import opened RequestBody

  datatype Reply = TooLarge | Dispatch(body: string)

  /** What the handler knows about a request between two calls. */
  datatype Progress = Opening | Receiving(text: string) | Refused | Dispatched

  /** What the server library hands over in one call: never nothing, and a `size_t` counts it. */
  type Piece = s: string | 0 < |s| < SIZE_MODULUS witness "x"

  /** The block behind a text of this length: there is none until the first piece comes. */
  function Allocated(length: nat): nat {
    if length == 0 then 0 else CapacityFor(length)
  }

  /** The call has to allocate: the first one for the body, a later one for a larger block. */
  predicate NeedsMemory(p: Progress, piece: string) {
    match p
    case Opening => true
    case Receiving(text) =>
      piece != "" && |text| + |piece| <= MAX_BODY_SIZE && Allocated(|text|) < |text| + |piece| + 1
    case _ => false
  }

  /** One call of the handler: the new progress and the replies it makes. Without memory a request
      is not opened, and a body that has to grow is refused like one that is too large. */
  function Advance(p: Progress, piece: string, granted: bool): (Progress, seq<Reply>) {
    match p
    case Opening => (if granted then Receiving("") else Opening, [])
    case Refused => (Refused, [])
    case Dispatched => (Dispatched, [])
    case Receiving(text) =>
      if piece == "" then (Dispatched, [Dispatch(text)])
      else if |text| + |piece| > MAX_BODY_SIZE || (!granted && NeedsMemory(p, piece)) then (Refused, [TooLarge])
      else (Receiving(text + piece), [])
  }

  /** `q` and `now` are the progress and the replies after one such call. */
  ghost predicate Follows(p: Progress, piece: string, granted: bool, said: seq<Reply>, q: Progress, now: seq<Reply>) {
    q == Advance(p, piece, granted).0 && now == said + Advance(p, piece, granted).1
  }

  /** All replies that calls with these pieces make when memory suffices. */
  function Replies(p: Progress, pieces: seq<string>): seq<Reply>
    decreases |pieces|
  {
    if pieces == [] then []
    else
      var (next, said) := Advance(p, pieces[0], true);
      said + Replies(next, pieces[1..])
  }

  function Concat(chunks: seq<string>): string {
    if chunks == [] then "" else chunks[0] + Concat(chunks[1..])
  }

  /** What a request with these chunks amounts to. */
  function Outcome(body: string): Reply {
    if |body| <= MAX_BODY_SIZE then Dispatch(body) else TooLarge
  }

  lemma {:induction false} RefusedStaysSilent(pieces: seq<string>)
    ensures Replies(Refused, pieces) == []
  {
    if pieces != [] {
      RefusedStaysSilent(pieces[1..]);
    }
  }

  lemma {:induction false} ReceivingAnswersOnce(text: string, chunks: seq<Piece>)
    requires |text| <= MAX_BODY_SIZE
    ensures Replies(Receiving(text), chunks + [""]) == [Outcome(text + Concat(chunks))]
    decreases |chunks|
  {
    var calls := chunks + [""];
    if chunks == [] {
      assert calls[1..] == [] && text + "" == text;
    } else {
      assert calls[1..] == chunks[1..] + [""];
      if |text| + |chunks[0]| > MAX_BODY_SIZE {
        RefusedStaysSilent(calls[1..]);
      } else {
        ReceivingAnswersOnce(text + chunks[0], chunks[1..]);
        assert text + chunks[0] + Concat(chunks[1..]) == text + Concat(chunks);
      }
    }
  }

  lemma OpeningCall(rest: seq<string>)
    ensures Replies(Opening, [""] + rest) == [] + Replies(Receiving(""), rest)
  {
    assert ([""] + rest)[1..] == rest;
  }

  /** However an upload is cut into pieces, one reply is made: dispatch of the whole
      body, or a single refusal when the total exceeds the limit. */
  lemma ChunkingDoesNotMatter(chunks: seq<Piece>)
    ensures Replies(Opening, [""] + chunks + [""]) == [Outcome(Concat(chunks))]
  {
    hide Concat, Outcome, Replies;
    ReceivingAnswersOnce("", chunks);
    assert "" + Concat(chunks) == Concat(chunks);
    OpeningCall(chunks + [""]);
    assert [""] + chunks + [""] == [""] + (chunks + [""]);
  }

  /** `*con_cls`, what has been queued, and how often bodies were made and freed. */
  class Exchange {
    var body: Body?
    var replies: seq<Reply>
    var dispatched: bool
    var created: nat
    var freed: nat

    ghost predicate Valid()
      reads this, body, if body == null then {} else {body.data}
    {
      && created == freed + (if body == null then 0 else 1)
      && (body != null ==> body.Valid() && !(dispatched && body.responseQueued))
      && (body != null ==> (body.data == null <==> body.length == 0))
      && (dispatched ==> body != null)
    }

    ghost function View(): Progress
      requires Valid()
      reads this, body, if body == null then {} else {body.data}
    {
      if body == null then Opening
      else if body.responseQueued then Refused
      else if dispatched then Dispatched
      else Receiving(body.Contents())
    }

    constructor ()
      ensures Valid() && View() == Opening && replies == [] && created == freed == 0
    {
      body, replies, dispatched, created, freed := null, [], false, 0, 0;
    }

    /** `http_access_handler`; `granted` says whether allocation succeeds in this call, `queued`
        whether a reply can be queued, and `remaining` is what it leaves in `*upload_data_size`. */
    method AccessHandler(piece: string, granted: bool, queued: bool) returns (yes: bool, remaining: nat)
      requires Valid() && !dispatched
      requires |piece| < SIZE_MODULUS
      modifies this, body, if body == null then {} else {body.data}
      ensures Valid() && Follows(old(View()), piece, granted, old(replies), View(), replies)
      ensures yes <==> if old(body) == null then granted else replies == old(replies) || queued
      ensures remaining == if old(body) == null then |piece| else 0
      ensures freed == old(freed)
      ensures created == old(created) + if old(body) == null && granted then 1 else 0
      ensures if old(body) != null then body == old(body) else body == null || fresh(body)
      ensures body != null && body.data != null ==>
                || fresh(body.data)
                || (body == old(body) && body.data == old(if body == null then null else body.data))
    {
      remaining := |piece|;
      if body == null {
        if !granted {
          return false, remaining;
        }
        body := new Body();
        created := created + 1;
        return true, remaining;
      }
      if body.responseQueued {
        remaining := 0;
        return true, remaining;
      }
      if remaining != 0 {
        var appended := body.Append(piece, granted);
        remaining := 0;
        if !appended {
          body.responseQueued := true;
          replies := replies + [TooLarge];
          return queued, remaining;
        }
        return true, remaining;
      }
      replies := replies + [Dispatch(if body.data == null then "" else body.data[..body.length])];
      dispatched := true;
      return queued, remaining;
    }

    /** `http_request_completed`: whatever was said, the body is gone and was freed once. */
    method RequestCompleted()
      requires Valid()
      modifies this
      ensures Valid() && body == null
      ensures freed == created == old(created)
      ensures replies == old(replies)
    {
      if body != null {
        freed := freed + 1;
        body := null;
      }
      dispatched := false;
    }
  }

  /** Some piece asked for a larger block and was refused it; `granted(0)` is the opening call. */
  ghost predicate Starved(chunks: seq<Piece>, granted: nat -> bool, until: nat) {
    exists i: nat :: i < until && i < |chunks| && !granted(i + 1)
      && NeedsMemory(Receiving(Concat(chunks[..i])), chunks[i])
  }

  lemma {:induction false} ConcatSplit(front: seq<string>, back: seq<string>)
    ensures Concat(front + back) == Concat(front) + Concat(back)
  {
    var all := front + back;
    if front == [] {
      assert all == back && Concat(front) + Concat(back) == Concat(back);
    } else {
      ConcatSplit(front[1..], back);
      assert all != [] && all[0] == front[0] && all[1..] == front[1..] + back;
      Associative(front[0], Concat(front[1..]), Concat(back));
    }
  }

  lemma Associative(a: string, b: string, c: string)
    ensures a + (b + c) == a + b + c
  {
  }

  lemma ConcatAppend(chunks: seq<string>, piece: string)
    ensures Concat(chunks + [piece]) == Concat(chunks) + piece
  {
    ConcatSplit(chunks, [piece]);
    assert Concat([piece]) == piece + Concat([]);
  }

  /** Where a request stands after the opening call and `i` pieces, and what has been said. */
  ghost predicate Received(chunks: seq<Piece>, granted: nat -> bool, i: nat, p: Progress, said: seq<Reply>)
    requires i <= |chunks|
  {
    if p == Refused then said == [TooLarge] && (Starved(chunks, granted, |chunks|) || |Concat(chunks)| > MAX_BODY_SIZE)
    else
      && p == Receiving(Concat(chunks[..i])) && |Concat(chunks[..i])| <= MAX_BODY_SIZE
      && said == [] && !Starved(chunks, granted, i)
  }

  lemma OnePieceMore(chunks: seq<Piece>, granted: nat -> bool, i: nat, p: Progress, said: seq<Reply>)
    requires i < |chunks| && Received(chunks, granted, i, p, said)
    ensures var (next, more) := Advance(p, chunks[i], granted(i + 1));
            && Received(chunks, granted, i + 1, next, said + more)
            && (next == Refused || (next.Receiving? && more == []))
  {
    hide Concat, NeedsMemory;
    assert chunks[..i + 1] == chunks[..i] + [chunks[i]] && chunks == chunks[..i + 1] + chunks[i + 1..];
    ConcatAppend(chunks[..i], chunks[i]);
    ConcatSplit(chunks[..i + 1], chunks[i + 1..]);
  }

  lemma Opened(chunks: seq<Piece>, granted: nat -> bool)
    ensures Advance(Opening, "", granted(0)) == (if granted(0) then Receiving("") else Opening, [])
    ensures Received(chunks, granted, 0, Receiving(""), [])
  {
    assert chunks[..0] == [];
  }

  lemma RefusedIsFinal(chunks: seq<Piece>, granted: nat -> bool, i: nat, said: seq<Reply>)
    requires i <= |chunks| && Received(chunks, granted, i, Refused, said)
    ensures said == [if Starved(chunks, granted, |chunks|) then TooLarge else Outcome(Concat(chunks))]
  {
    hide Concat;
  }

  lemma LastCall(chunks: seq<Piece>, granted: nat -> bool, p: Progress, said: seq<Reply>, last: bool)
    requires Received(chunks, granted, |chunks|, p, said)
    ensures said + Advance(p, "", last).1 ==
            if Starved(chunks, granted, |chunks|) then [TooLarge] else [Outcome(Concat(chunks))]
  {
    hide Concat, NeedsMemory;
    assert chunks[..|chunks|] == chunks;
  }

  /** A whole request as the server library conducts it: the opening call, one call for each piece,
      one more at the end, and completion. It gives up after a call that fails. With memory the
      replies are one, that of the whole body; without, one refusal, or none if nothing was opened.
      Every body that was made has been freed once. */
  method Receive(chunks: seq<Piece>, granted: nat -> bool, queued: bool) returns (x: Exchange)
    ensures fresh(x) && x.Valid() && x.body == null
    ensures x.created == x.freed == if granted(0) then 1 else 0
    ensures x.replies == if !granted(0) then []
                         else if Starved(chunks, granted, |chunks|) then [TooLarge]
                         else [Outcome(Concat(chunks))]
  {
    hide Concat, Advance, Received;
    x := new Exchange();
    var yes, _ := x.AccessHandler("", granted(0), queued);
    Opened(chunks, granted);
    if yes {
      var i := 0;
      while yes && i < |chunks|
        invariant 0 <= i <= |chunks|
        invariant x.Valid() && x.body != null && !x.dispatched
        invariant fresh(x.body) && (x.body.data == null || fresh(x.body.data))
        invariant x.created == 1 && x.freed == 0
        invariant Received(chunks, granted, i, x.View(), x.replies) && (yes || x.View() == Refused)
      {
        OnePieceMore(chunks, granted, i, x.View(), x.replies);
        var more, _ := x.AccessHandler(chunks[i], granted(i + 1), queued);
        yes := more;
        i := i + 1;
      }
      if yes {
        LastCall(chunks, granted, x.View(), x.replies, granted(i + 1));
        var _, _ := x.AccessHandler("", granted(i + 1), queued);
      } else {
        RefusedIsFinal(chunks, granted, i, x.replies);
      }
    }
    x.RequestCompleted();
  }
}
