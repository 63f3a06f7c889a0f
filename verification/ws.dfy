/** The gateway's WebSocket session handler
    (crates/opencrust-gateway/src/ws.rs): a welcome frame, then one reply per
    text frame until the peer closes, errs or sends too much text. */
module WebSocket {
  import opened Common

  /** Largest accepted text message, in UTF-8 bytes. */
  const MaxTextBytes: nat := 32 * 1024

  /** `text_message_too_large`: the bound is inclusive. */
  function TextTooLarge(len: nat): (tooLarge: bool)
    ensures tooLarge <==> len > 32768
  {
    len > MaxTextBytes
  }

  lemma TextTooLargeBoundary()
    ensures !TextTooLarge(MaxTextBytes) && TextTooLarge(MaxTextBytes + 1)
  {
  }

  /** What the receiving half of the socket yields. */
  datatype Incoming =
    | Text(text: string)
    | Binary(data: seq<bv8>)
    | Ping
    | Pong
    | Close
    | Failed(reason: string)

  /** The JSON frames the handler sends, by their `type`. */
  datatype Outbound =
    | Connected(sessionId: string)
    | TooLarge(maxBytes: nat)
    | Echo(sessionId: string, content: string)

  /** The peer: the frames it sends, in order, and how many of our sends it
      accepts before sending starts to fail. */
  datatype Peer = Peer(frames: seq<Incoming>, accepts: nat)

  /** Reference definition of the message loop: the frames it tries to send
      for the remaining input, with `budget` sends still able to succeed. */
  function Replies(id: string, frames: seq<Incoming>, budget: nat): seq<Outbound>
    decreases |frames|
  {
    if frames == [] then []
    else match frames[0]
      case Text(t) =>
        if TextTooLarge(Utf8Len(t)) then [TooLarge(MaxTextBytes)]
        else if budget == 0 then [Echo(id, "echo: " + t)]
        else [Echo(id, "echo: " + t)] + Replies(id, frames[1..], budget - 1)
      case Close => []
      case Failed(_) => []
      case _ => Replies(id, frames[1..], budget)
  }

  /** The gateway's session table before and after one connection. */
  datatype Finish = Finish(sent: seq<Outbound>, sessions: set<string>)

  /** `handle_socket` for a connection that was given session `id`. */
  method HandleSocket(sessions: set<string>, id: string, peer: Peer) returns (f: Finish)
    ensures |f.sent| >= 1 && f.sent[0] == Connected(id)
    ensures peer.accepts == 0 ==> f == Finish([Connected(id)], sessions + {id})
    ensures peer.accepts > 0 ==>
              f == Finish([Connected(id)] + Replies(id, peer.frames, peer.accepts - 1), sessions - {id})
  {
    var live := sessions + {id};
    var sent := [Connected(id)];
    if peer.accepts == 0 {
      return Finish(sent, live);
    }
    var budget: nat := peer.accepts - 1;
    var i := 0;
    var running := true;
    while running && i < |peer.frames|
      invariant 0 <= i <= |peer.frames|
      invariant |sent| >= 1 && sent[0] == Connected(id)
      invariant running ==> sent + Replies(id, peer.frames[i..], budget)
                            == [Connected(id)] + Replies(id, peer.frames, peer.accepts - 1)
      invariant !running ==> sent == [Connected(id)] + Replies(id, peer.frames, peer.accepts - 1)
      decreases |peer.frames| - i, running
    {
      var frame := peer.frames[i];
      assert peer.frames[i..][1..] == peer.frames[i + 1..];
      match frame {
        case Text(t) =>
          if TextTooLarge(Utf8Len(t)) {
            sent := sent + [TooLarge(MaxTextBytes)];
            running := false;
          } else if budget == 0 {
            sent := sent + [Echo(id, "echo: " + t)];
            running := false;
          } else {
            assert sent + [Echo(id, "echo: " + t)] + Replies(id, peer.frames[i + 1..], budget - 1)
                == sent + ([Echo(id, "echo: " + t)] + Replies(id, peer.frames[i + 1..], budget - 1));
            sent := sent + [Echo(id, "echo: " + t)];
            budget := budget - 1;
            i := i + 1;
          }
        case Close =>
          running := false;
        case Failed(_) =>
          running := false;
        case _ =>
          i := i + 1;
      }
    }
    if running {
      assert peer.frames[i..] == [];
    }
    return Finish(sent, live - {id});
  }

  /** `o` is the echo of one acceptable text frame of `frames`, on
      connection `id`. */
  ghost predicate EchoOf(id: string, frames: seq<Incoming>, o: Outbound) {
    o.Echo? && o.sessionId == id
    && exists k :: 0 <= k < |frames| && frames[k].Text? && !TextTooLarge(Utf8Len(frames[k].text))
                   && o.content == "echo: " + frames[k].text
  }

  lemma EchoOfTail(id: string, frames: seq<Incoming>, o: Outbound)
    requires frames != [] && EchoOf(id, frames[1..], o)
    ensures EchoOf(id, frames, o)
  {
    var k :| 0 <= k < |frames[1..]| && frames[1..][k].Text? && !TextTooLarge(Utf8Len(frames[1..][k].text))
             && o.content == "echo: " + frames[1..][k].text;
    assert frames[k + 1] == frames[1..][k];
  }

  /** Every reply in `r` is an echo of an acceptable text frame of
      `frames`, except possibly a final size error. */
  ghost predicate Shaped(id: string, frames: seq<Incoming>, r: seq<Outbound>) {
    forall j :: 0 <= j < |r| ==> EchoOf(id, frames, r[j]) || (r[j] == TooLarge(MaxTextBytes) && j == |r| - 1)
  }

  lemma ShapedTail(id: string, frames: seq<Incoming>, r: seq<Outbound>)
    requires frames != [] && Shaped(id, frames[1..], r)
    ensures Shaped(id, frames, r)
  {
    forall j | 0 <= j < |r| && EchoOf(id, frames[1..], r[j]) ensures EchoOf(id, frames, r[j]) {
      EchoOfTail(id, frames, r[j]);
    }
  }

  lemma ShapedCons(id: string, frames: seq<Incoming>, e: Outbound, r: seq<Outbound>)
    requires EchoOf(id, frames, e) && Shaped(id, frames, r)
    ensures Shaped(id, frames, [e] + r)
  {
    var r' := [e] + r;
    forall j | 0 < j < |r'| ensures r'[j] == r[j - 1] {
    }
  }

  /** Every reply is an echo of a text frame of acceptable size, carrying
      the connection's own session id, except a final size error. */
  lemma {:induction false} RepliesShape(id: string, frames: seq<Incoming>, budget: nat)
    ensures Shaped(id, frames, Replies(id, frames, budget))
    decreases |frames|
  {
    if frames != [] {
      match frames[0] {
        case Text(t) =>
          if !TextTooLarge(Utf8Len(t)) {
            var e := Echo(id, "echo: " + t);
            assert EchoOf(id, frames, e) by {
              assert frames[0].Text? && !TextTooLarge(Utf8Len(frames[0].text)) && e.content == "echo: " + frames[0].text;
            }
            if budget == 0 {
              assert Shaped(id, frames, []);
              ShapedCons(id, frames, e, []);
              assert [e] + [] == [e];
            } else {
              RepliesShape(id, frames[1..], budget - 1);
              ShapedTail(id, frames, Replies(id, frames[1..], budget - 1));
              ShapedCons(id, frames, e, Replies(id, frames[1..], budget - 1));
            }
          }
        case Close =>
        case Failed(_) =>
        case _ =>
          RepliesShape(id, frames[1..], budget);
          ShapedTail(id, frames, Replies(id, frames[1..], budget));
      }
    }
  }

  /** Nothing the peer sends after a Close (or an error) is answered. */
  lemma {:induction false} RepliesStopAtClose(id: string, a: seq<Incoming>, b: seq<Incoming>, budget: nat)
    ensures Replies(id, a + [Close] + b, budget) == Replies(id, a + [Close], budget)
    decreases |a|
  {
    if a == [] {
      assert ([] + [Close] + b)[1..] == b;
    } else {
      assert (a + [Close] + b)[1..] == a[1..] + [Close] + b;
      assert (a + [Close])[1..] == a[1..] + [Close];
      RepliesStopAtClose(id, a[1..], b, if a[0].Text? && budget > 0 then budget - 1 else budget);
      RepliesStopAtClose(id, a[1..], b, budget);
    }
  }

  /** A peer that sends only acceptable text, and accepts every reply, gets
      exactly one echo per frame, in order. */
  lemma {:induction false} RepliesEchoAll(id: string, frames: seq<Incoming>, budget: nat)
    requires forall k :: 0 <= k < |frames| ==> frames[k].Text? && !TextTooLarge(Utf8Len(frames[k].text))
    requires budget >= |frames|
    ensures |Replies(id, frames, budget)| == |frames|
    ensures forall k :: 0 <= k < |frames| ==>
              Replies(id, frames, budget)[k] == Echo(id, "echo: " + frames[k].text)
    decreases |frames|
  {
    if frames != [] {
      RepliesEchoAll(id, frames[1..], budget - 1);
      assert forall k :: 1 <= k < |frames| ==> frames[k] == frames[1..][k - 1];
    }
  }

  /** An oversized text frame is answered with the size error alone, and
      nothing after it is read. */
  lemma OversizedEnds(id: string, t: string, rest: seq<Incoming>, budget: nat)
    requires Utf8Len(t) > 32768
    ensures Replies(id, [Text(t)] + rest, budget) == [TooLarge(32768)]
  {
    assert ([Text(t)] + rest)[0] == Text(t);
  }

  /** Binary, ping and pong frames are skipped without a reply. */
  lemma OtherFramesIgnored(id: string, frame: Incoming, rest: seq<Incoming>, budget: nat)
    requires frame.Binary? || frame.Ping? || frame.Pong?
    ensures Replies(id, [frame] + rest, budget) == Replies(id, rest, budget)
  {
    assert ([frame] + rest)[1..] == rest;
  }

  /** The handler answers at most once per frame, plus the welcome. */
  lemma {:induction false} RepliesBounded(id: string, frames: seq<Incoming>, budget: nat)
    ensures |Replies(id, frames, budget)| <= |frames|
    decreases |frames|
  {
    if frames != [] {
      RepliesBounded(id, frames[1..], budget);
      if budget > 0 {
        RepliesBounded(id, frames[1..], budget - 1);
      }
    }
  }
}
