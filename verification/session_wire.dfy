/** A session byte by byte: what the client is sent, in terms of what it said and of what the session found outside. */
module SessionWire {
  import opened Bytes
  import opened Parser
  import opened Session
  import F = Frames

  /** The ten bytes of a failure, whatever failed. */
  function Failure(): bytes {
    [5, 1, 0, 1, 0, 0, 0, 0, 0, 0]
  }

  lemma OutputStep(es: seq<Event>, e: Event)
    ensures Output(es + [e]) == Output(es) + Adds(e)
  {
    assert (es + [e])[..|es|] == es;
  }

  lemma {:induction false} OutputAppend(es: seq<Event>, more: seq<Event>)
    ensures Output(es + more) == Output(es) + Output(more)
  {
    if more == [] {
      assert es + more == es;
    } else {
      var n := |more| - 1;
      OutputAppend(es, more[..n]);
      assert more == more[..n] + [more[n]];
      assert es + more == es + more[..n] + [more[n]];
      hide Output, Adds;
      OutputStep(es + more[..n], more[n]);
      OutputStep(more[..n], more[n]);
      Assoc(Output(es), Output(more[..n]), Adds(more[n]));
    }
  }

  lemma OutputFew(d: Event, e: Event, f: Event)
    ensures Output([]) == [] && Output([d]) == Adds(d) && Output([d, e]) == Adds(d) + Adds(e)
    ensures Output([d, e, f]) == Adds(d) + Adds(e) + Adds(f)
  {
    assert Output([]) == [];
    hide Output, Adds;
    assert [] + [d] == [d];
    OutputStep([], d);
    assert [d] + [e] == [d, e];
    OutputStep([d], e);
    assert [d, e] + [f] == [d, e, f];
    OutputStep([d, e], f);
  }

  /** The answer to the request proper. A CONNECT whose address frames the relay's link does not take is not answered at
      all. */
  lemma AnswerSeen(w: World, req: bytes)
    requires Sane(w)
    ensures var out, asked := Output(Answer(w, req)), ParseConnect(req);
            && (asked.Panics? ==> out == [])
            && (asked.Refused? ==> out == Failure())
            && (asked.Accepted? && w.dial(req[1]).None? ==> out == Failure())
            && (asked.Accepted? && req[1] == 1 && w.dial(1).Some? ==>
                  var length := F.Packet(w.nonces.0, [|asked.addr| % 256]);
                  var frames := F.Frame(w.aead, length) + F.Frame(w.aead, F.Packet(w.nonces.1, asked.addr));
                  out == if |frames| <= w.dial(1).value then [5, 0, 0, 1, 0, 0, 0, 0, 0, 0] + w.back else [])
            && (asked.Accepted? && req[1] == 3 && w.dial(3).Some? ==>
                  out == if w.listens.None? then Failure()
                         else [5, 0, 0, 1, 127, 0, 0, 1, w.listens.value / 256, w.listens.value % 256])
  {
    var asked := ParseConnect(req);
    if asked.Accepted? {
      CommandIs(req);
      hide ParseConnect;
      RelayedSeen(w, asked.cmd, asked.addr);
    } else {
      OutputFew(Wrote(FAILURE), Wrote(FAILURE), Wrote(FAILURE));
    }
    hide ParseConnect, Output, Relayed;
  }

  lemma CommandIs(req: bytes)
    requires ParseConnect(req).Accepted?
    ensures |req| >= 4 && ParseConnect(req).cmd == req[1] && (req[1] == 1 || req[1] == 3)
  {
    hide AddrText;
  }

  lemma RelayedSeen(w: World, cmd: byte, addr: bytes)
    requires Sane(w) && (cmd == 1 || cmd == 3)
    ensures var out := Output(Relayed(w, cmd, addr));
            && (w.dial(cmd).None? ==> out == Failure())
            && (w.dial(cmd).Some? && cmd == 1 ==>
                  var length := F.Packet(w.nonces.0, [|addr| % 256]);
                  var frames := F.Frame(w.aead, length) + F.Frame(w.aead, F.Packet(w.nonces.1, addr));
                  out == if |frames| <= w.dial(1).value then [5, 0, 0, 1, 0, 0, 0, 0, 0, 0] + w.back else [])
            && (w.dial(cmd).Some? && cmd == 3 ==>
                  out == if w.listens.None? then Failure()
                         else [5, 0, 0, 1, 127, 0, 0, 1, w.listens.value / 256, w.listens.value % 256])
  {
    var dialled := Dialled(cmd, w.dial(cmd).Some?);
    if w.dial(cmd).None? {
      OutputFew(dialled, Wrote(FAILURE), dialled);
    } else {
      var room := w.dial(cmd).value;
      OutputFew(dialled, dialled, dialled);
      OutputAppend([dialled], Associated(w, cmd, addr, room));
      hide Output, Associated, F.Frame;
      if cmd == 3 {
        ListeningSeen(w, addr, room);
      } else {
        ConnectedSeen(w, addr, room);
      }
    }
  }

  lemma ListeningSeen(w: World, addr: bytes, room: nat)
    requires Sane(w)
    ensures Output(Associated(w, 3, addr, room)) ==
            if w.listens.None? then Failure()
            else [5, 0, 0, 1, 127, 0, 0, 1, w.listens.value / 256, w.listens.value % 256]
  {
    var reply := Wrote(if w.listens.None? then FAILURE else Listening(w.listens.value));
    OutputFew(reply, reply, reply);
    hide Output, Takes;
  }

  lemma ConnectedSeen(w: World, addr: bytes, room: nat)
    requires Sane(w)
    ensures var length := F.Packet(w.nonces.0, [|addr| % 256]);
            var frames := F.Frame(w.aead, length) + F.Frame(w.aead, F.Packet(w.nonces.1, addr));
            Output(Associated(w, 1, addr, room)) ==
            if |frames| <= room then [5, 0, 0, 1, 0, 0, 0, 0, 0, 0] + w.back else []
  {
    TakesFrames(w, room, addr);
    OutputFew(Announced(addr, true), Wrote(CONNECTED), Tunnelled(w.back));
    OutputFew(Announced(addr, false), Wrote([]), Wrote([]));
    hide Output, Takes, F.Frame;
  }

  lemma TakesFrames(w: World, room: nat, addr: bytes)
    ensures var frames := F.Frame(w.aead, F.Packet(w.nonces.0, [|addr| % 256]))
                          + F.Frame(w.aead, F.Packet(w.nonces.1, addr));
            Takes(w, room, addr) <==> |frames| <= room
  {
    hide F.Frame;
    var ps := AddressFrames(w, addr);
    assert ps == [ps[0]] + [ps[1]];
    F.EncodeAppend(w.aead, [ps[0]], [ps[1]]);
    F.EncodeOne(w.aead, ps[0]);
    F.EncodeOne(w.aead, ps[1]);
  }

  /** `req` is the encoding of a user and a password, two characters at least in all, that the store knows. */
  ghost predicate Proves(w: World, req: bytes) {
    exists u :: Encodable(u) && |u.name| + |u.password| >= 2 && req == EncodeAuth(u) && w.check(u)
  }

  lemma KnownProves(w: World, req: bytes)
    ensures Known(w, req) <==> Proves(w, req)
  {
    if Known(w, req) {
      AuthExactly(req, ParseAuth(req).value);
    }
    if Proves(w, req) {
      var u :| Encodable(u) && |u.name| + |u.password| >= 2 && req == EncodeAuth(u) && w.check(u);
      AuthExactly(req, u);
    }
    hide EncodeAuth, ParseAuth;
  }

  /** Everything the client is sent, for every sequence of messages heard. */
  lemma ScriptSeen(w: World, heard: seq<bytes>)
    requires Sane(w)
    ensures heard == [] ==> Output(Script(w, heard)) == []
    ensures heard != [] ==>
              var out, hello := Output(Script(w, heard)), heard[0];
              var form := |hello| >= 3 && hello[0] == 5 && 1 <= hello[1] as nat <= |hello| - 2;
              out ==
              if !form then []
              else if Offers(hello, 2) then
                [5, 2] + if |heard| == 1 then []
                         else if !Proves(w, heard[1]) then [1, 1]
                         else if |heard| == 2 then [1, 0]
                         else [1, 0] + Output(Answer(w, heard[2]))
              else if Offers(hello, 0) && w.allowNoAuth then
                [5, 0] + if |heard| == 1 then [] else Output(Answer(w, heard[1]))
              else [5, 255]
  {
    assert Output([]) == [];
    if heard != [] {
      SelectedExactly(heard[0], w.allowNoAuth);
      var chosen := Selected(heard[0], w.allowNoAuth);
      CodeKnown(heard[0], w.allowNoAuth);
      if |heard| > 1 {
        KnownProves(w, heard[1]);
      }
      hide Output, Answer, Selected, Offers, Known, Judgement, Proves;
      match chosen
      case Invalid =>
      case NoAcceptable =>
        OutputFew(Wrote([5, 0xFF]), Wrote([]), Wrote([]));
      case Method(code) =>
        OutputFew(Wrote([5, code]), Wrote([]), Wrote([]));
        if code == 0 {
          OpenSeen(w, heard[1..]);
        } else {
          PasswordSeen(w, heard[1..]);
        }
    }
  }

  lemma CodeKnown(hello: bytes, allowNoAuth: bool)
    ensures Selected(hello, allowNoAuth).Method? ==>
              Selected(hello, allowNoAuth) == Method(0) || Selected(hello, allowNoAuth) == Method(2)
  {
  }

  lemma OpenSeen(w: World, rest: seq<bytes>)
    requires Sane(w)
    ensures Output(OpenScript(w, rest)) == [5, 0] + if rest == [] then [] else Output(Answer(w, rest[0]))
  {
    OutputFew(Wrote([5, 0]), Wrote([]), Wrote([]));
    if rest != [] {
      OutputAppend([Wrote([5, 0])], Answer(w, rest[0]));
    }
    hide Output, Answer;
  }

  lemma JudgementSeen(w: World, req: bytes)
    ensures Output(Judgement(w, req)) == if Known(w, req) then [1, 0] else [1, 1]
  {
    hide Output;
    OutputFew(Verdict(false), Verdict(false), Verdict(false));
    match ParseAuth(req)
    case None =>
    case Some(u) =>
      OutputFew(Checked(u, w.check(u)), Verdict(w.check(u)), Verdict(false));
  }

  lemma PasswordSeen(w: World, rest: seq<bytes>)
    requires Sane(w)
    ensures Output(PasswordScript(w, rest)) ==
            [5, 2] + if rest == [] then []
                     else if !Known(w, rest[0]) then [1, 1]
                     else if |rest| == 1 then [1, 0]
                     else [1, 0] + Output(Answer(w, rest[1]))
  {
    var first := Wrote([5, 2]);
    OutputFew(first, first, first);
    hide Output, Answer, Known, Judgement;
    if rest != [] {
      var judged := Judgement(w, rest[0]);
      JudgementSeen(w, rest[0]);
      OutputAppend([first], judged);
      assert [first] + judged + [] == [first] + judged;
      if Known(w, rest[0]) && |rest| > 1 {
        OutputAppend([first] + judged, Answer(w, rest[1]));
        Assoc([5, 2], [1, 0], Output(Answer(w, rest[1])));
      }
    }
  }

  /** The client is through: no authentication was chosen, or the pair it sent is known. */
  ghost predicate Through(w: World, heard: seq<bytes>) {
    && heard != []
    && var hello := heard[0];
       |hello| >= 3 && hello[0] == 5 && 1 <= hello[1] as nat <= |hello| - 2
       && if Offers(hello, 2) then |heard| == 2 && Proves(w, heard[1])
          else |heard| == 1 && Offers(hello, 0) && w.allowNoAuth
  }

  /** Exactly when a session reads another message, and exactly when a message makes it panic. */
  lemma GoesOnExactly(w: World, heard: seq<bytes>)
    ensures Wants(w, heard) <==>
            || heard == [] || Through(w, heard)
            || (|heard| == 1 && |heard[0]| >= 3 && heard[0][0] == 5 && 1 <= heard[0][1] as nat <= |heard[0]| - 2
                && Offers(heard[0], 2))
    ensures Crashes(w, heard) <==>
            && heard != [] && Through(w, heard[..|heard| - 1])
            && var req := heard[|heard| - 1];
               |req| >= 4 && req[0] == 5 && req[1] == 1 && req[3] == 3
               && (|req| == 4 || (|req| == 7 + req[4] as nat && req[4] >= 251))
  {
    PassedIsThrough(w, heard);
    if heard != [] {
      SelectedExactly(heard[0], w.allowNoAuth);
      PassedIsThrough(w, heard[..|heard| - 1]);
      ConnectExactly(heard[|heard| - 1]);
    }
    hide Through, Passed, Selected, Offers, ParseConnect;
  }

  lemma PassedIsThrough(w: World, heard: seq<bytes>)
    ensures Passed(w, heard) <==> Through(w, heard)
  {
    if heard != [] {
      SelectedExactly(heard[0], w.allowNoAuth);
      CodeKnown(heard[0], w.allowNoAuth);
      if |heard| > 1 {
        KnownProves(w, heard[1]);
      }
      hide Selected, Offers, Known, Proves;
    }
  }
}
