/** Streaming large objects: a file is written to a LOB, and a LOB to a file, in pieces of
    at most 64 KB, each piece repeated while the server is busy. */
module Lobs {
  import opened Oci
  import opened Wrappers

  /** MAX_LONG_SIZE, the size of the piece buffer. */
  const CHUNK := 0x1_0000

  type byte = x: nat | x < 0x100
  type ub4 = x: nat | x < 0x1_0000_0000

  /** A reply that is neither success, a request for more, nor STILL_EXECUTING. */
  type Refusal = x: int | x != SUCCESS && x != NEED_DATA && x != STILL_EXECUTING witness ERROR

  datatype Kind = One | First | Next | Last

  datatype Piece = Piece(kind: Kind, bytes: seq<byte>)

  /** How the server meets one call: it is busy, it refuses, or it does what is asked. `errcode` is
      the error code behind a refusal. */
  datatype Answer = Busy | Fail(code: Refusal, errcode: int) | Ready

  // ------------------------------------------------------------------ the server

  /** A piecewise write under way, of `total` bytes. */
  datatype Incoming = Incoming(total: nat, bytes: seq<byte>)

  /** A piecewise read under way, of `total` bytes. */
  datatype Outgoing = Outgoing(total: nat, delivered: nat)

  /** The server's side of one LOB: its bytes, the transfers under way, the pieces accepted so far, and
      the answers to come; after those every call is met at once. */
  datatype Server = Server(contents: seq<byte>, incoming: Option<Incoming>, outgoing: Option<Outgoing>,
                           accepted: seq<Piece>, answers: seq<Answer>)
  {
    ghost predicate Ok() {
      outgoing.Some? ==> outgoing.value.delivered <= outgoing.value.total <= |contents|
    }

    function Answered(): (s: Server)
      ensures s == this.(answers := s.answers)
      ensures |s.answers| <= |answers| && (Now().Busy? ==> |s.answers| < |answers|)
    {
      this.(answers := if answers == [] then [] else answers[1..])
    }

    function Now(): Answer {
      if answers == [] then Ready else answers[0]
    }
  }

  function Min(a: nat, b: nat): nat {
    if a < b then a else b
  }

  /** Writing at offset 1: what lies beyond the new bytes stays. */
  function Overlay(contents: seq<byte>, bytes: seq<byte>): seq<byte> {
    bytes + contents[Min(|bytes|, |contents|)..]
  }

  /** OCILobWrite. The server insists on the piecewise protocol: a single piece brings exactly the amount
      announced, a first piece less, further pieces follow an open write and stay below the
      amount, and the last completes it. Only then the LOB changes. */
  function LobWrite(s: Server, amount: nat, p: Piece): (r: (Server, int))
    requires s.Ok()
    ensures r.0.Ok() && |r.0.answers| <= |s.answers| && (r.1 == STILL_EXECUTING ==> |r.0.answers| < |s.answers|)
    ensures r.1 == NEED_DATA ==> p.kind.First? || p.kind.Next?
    ensures r.1 == SUCCESS ==> p.kind.One? || p.kind.Last?
  {
    var s1 := s.Answered();
    match s.Now()
    case Busy => (s1, STILL_EXECUTING)
    case Fail(code, _) => (s1.(incoming := None), code)
    case Ready =>
      var sent := if p.kind.One? || p.kind.First? then Some(Incoming(amount, [])) else s.incoming;
      if sent.None? then (s1, ERROR)
      else
        var i := Incoming(sent.value.total, sent.value.bytes + p.bytes);
        var complete := p.kind.One? || p.kind.Last?;
        if (if complete then |i.bytes| == i.total else |i.bytes| < i.total) then
          var s2 := s1.(accepted := s.accepted + [p]);
          if complete then (s2.(incoming := None, contents := Overlay(s.contents, i.bytes)), SUCCESS)
          else (s2.(incoming := Some(i)), NEED_DATA)
        else (s1.(incoming := None), ERROR)
  }

  /** OCILobRead of `amount` bytes into a buffer of `n`: the bytes delivered by this call. */
  function LobRead(s: Server, amount: nat, n: nat): (r: (Server, int, seq<byte>))
    requires s.Ok()
    ensures r.0.Ok() && |r.0.answers| <= |s.answers| && (r.1 == STILL_EXECUTING ==> |r.0.answers| < |s.answers|)
    ensures |r.2| <= n && (r.1 == STILL_EXECUTING ==> r.2 == [])
  {
    var s1 := s.Answered();
    match s.Now()
    case Busy => (s1, STILL_EXECUTING, [])
    case Fail(code, _) => (s1.(outgoing := None), code, [])
    case Ready =>
      var o := if s.outgoing.None? then Outgoing(Min(amount, |s.contents|), 0) else s.outgoing.value;
      var upto := Min(o.delivered + n, o.total);
      var bytes := s.contents[o.delivered..upto];
      if upto == o.total then (s1.(outgoing := None), SUCCESS, bytes)
      else (s1.(outgoing := Some(o.(delivered := upto))), NEED_DATA, bytes)
  }

  /** OCILobOpen and OCILobClose. */
  function Plain(s: Server): (r: (Server, int))
    ensures r.0 == s.(answers := r.0.answers)
    ensures |r.0.answers| <= |s.answers| && (r.1 == STILL_EXECUTING ==> |r.0.answers| < |s.answers|)
  {
    (s.Answered(), match s.Now() case Busy => STILL_EXECUTING case Fail(code, _) => code case Ready => SUCCESS)
  }

  // ------------------------------------------------------- what streaming does

  /** The loops around `sqlo_lob_write_buffer`. */
  function PollWrite(s: Server, amount: nat, p: Piece): (r: (Server, int))
    requires s.Ok()
    ensures r.0.Ok() && r.1 != STILL_EXECUTING && (r.1 == NEED_DATA ==> p.kind.First? || p.kind.Next?)
      && (r.1 == SUCCESS ==> p.kind.One? || p.kind.Last?)
    decreases |s.answers|
  {
    var r := LobWrite(s, amount, p);
    if r.1 == STILL_EXECUTING then PollWrite(r.0, amount, p) else r
  }

  /** The piece the loop of `sqlo_lob_write_stream` sends next, of the bytes left. */
  function NextPiece(data: seq<byte>): Piece {
    if |data| > CHUNK then Piece(Next, data[..CHUNK]) else Piece(Last, data)
  }

  /** That loop, for the bytes after the first piece. */
  function SendRest(s: Server, total: nat, data: seq<byte>): (r: (Server, int))
    requires s.Ok()
    ensures r.0.Ok() && r.1 != STILL_EXECUTING
    decreases |data|
  {
    var r := PollWrite(s, total, NextPiece(data));
    if r.1 == NEED_DATA && |data| > CHUNK then SendRest(r.0, total, data[CHUNK..]) else r
  }

  function PollPlain(s: Server): (r: (Server, int))
    ensures r.0 == s.(answers := r.0.answers) && r.1 != STILL_EXECUTING
    decreases |s.answers|
  {
    var r := Plain(s);
    if r.1 == STILL_EXECUTING then PollPlain(r.0) else r
  }

  /** A failed OCILobOpen is overlooked when the error code says the server is only busy. */
  predicate OpenOverlooked(a: Answer) {
    match a
    case Busy => true
    case Fail(code, errcode) => code > 0 || errcode == BUSY_CODE
    case Ready => true
  }

  /** `sqlo_lob_write_stream` on a file holding `data`. `haveOpen` tells whether this OCI has
      OCILobOpen. */
  function Store(s: Server, data: seq<byte>, haveOpen: bool): (r: (Server, int))
    requires s.Ok()
    ensures r.0.Ok()
  {
    if |data| <= CHUNK then PollWrite(s, |data|, Piece(One, data))
    else if haveOpen && !OpenOverlooked(s.Now()) then Plain(s)
    else
      var r := PollWrite(if haveOpen then Plain(s).0 else s, |data|, Piece(First, data[..CHUNK]));
      if r.1 != NEED_DATA then (r.0, if r.1 < 0 then r.1 else ERROR)
      else
        var r2 := SendRest(r.0, |data|, data[CHUNK..]);
        if r2.1 < 0 || !haveOpen then r2 else PollPlain(r2.0)
  }

  function PollRead(s: Server, amount: nat, n: nat): (r: (Server, int, seq<byte>))
    requires s.Ok()
    ensures r.0.Ok() && r.1 != STILL_EXECUTING && |r.2| <= n
    decreases |s.answers|
  {
    var r := LobRead(s, amount, n);
    if r.1 == STILL_EXECUTING then PollRead(r.0, amount, n) else r
  }

  function ZeroBytes(n: nat): (z: seq<byte>)
    ensures |z| == n && forall i :: 0 <= i < n ==> z[i] == 0
  {
    seq(n, _ => 0)
  }

  /** `bytes` in a buffer of `n` zeros. */
  function Padded(bytes: seq<byte>, n: nat): (r: seq<byte>)
    requires |bytes| <= n
    ensures |r| == n
  {
    bytes + ZeroBytes(n - |bytes|)
  }

  /** A read of `loblen` bytes is under way and `left` bytes are still to come. */
  ghost predicate Awaits(s: Server, loblen: nat, left: nat) {
    s.Ok() && left <= loblen && s.outgoing == Some(Outgoing(loblen, loblen - left))
  }

  /** The loop of `sqlo_lob_read_stream` with `left` bytes to come: what it writes to the file. It
      writes after every call, whether or not anything was delivered. */
  function LoadRest(s: Server, loblen: nat, left: nat): (r: (Server, int, seq<byte>))
    requires Awaits(s, loblen, left)
    ensures r.0.Ok()
    decreases left
  {
    var r := PollRead(s, loblen, CHUNK);
    var out := Padded(r.2, CHUNK)[..Min(left, CHUNK)];
    if r.1 != NEED_DATA then (r.0, r.1, out)
    else
      NextRead(s, loblen, left);
      var rest := LoadRest(r.0, loblen, left - CHUNK);
      (rest.0, rest.1, out + rest.2)
  }

  /** `sqlo_lob_read_stream`, asked for no more than the LOB holds. */
  function Load(s: Server, loblen: nat): (r: (Server, int, seq<byte>))
    requires s.Ok() && s.outgoing.None? && loblen <= |s.contents|
    ensures r.0.Ok()
  {
    var r := PollRead(s, loblen, Min(loblen, CHUNK));
    FirstRead(s, loblen);
    if r.1 == SUCCESS then (r.0, r.1, r.2)
    else if r.1 != NEED_DATA then (r.0, r.1, [])
    else
      var rest := LoadRest(r.0, loblen, loblen - CHUNK);
      (rest.0, rest.1, r.2 + rest.2)
  }

  // ----------------------------------------------------------- the piece protocol

  /** The pieces after the first. */
  function RestPieces(data: seq<byte>): (ps: seq<Piece>)
    ensures ps != []
    decreases |data|
  {
    [NextPiece(data)] + if |data| > CHUNK then RestPieces(data[CHUNK..]) else []
  }

  function Pieces(data: seq<byte>): (ps: seq<Piece>)
    ensures ps != []
  {
    if |data| <= CHUNK then [Piece(One, data)]
    else [Piece(First, data[..CHUNK])] + RestPieces(data[CHUNK..])
  }

  function Joined(ps: seq<Piece>): seq<byte> {
    if ps == [] then [] else ps[0].bytes + Joined(ps[1..])
  }

  /** How many pieces `n` bytes take. */
  function Count(n: nat): nat {
    (n + CHUNK - 1) / CHUNK
  }

  /** The pieces of a file: ONE, or FIRST NEXT* LAST; as many as 64 KB chunks are needed, all full but
      the last; together the file. */
  lemma PieceProtocol(data: seq<byte>)
    requires data != []
    ensures var ps := Pieces(data);
      && |ps| == Count(|data|) && Joined(ps) == data
      && (|ps| == 1 ==> ps[0].kind.One?)
      && (|ps| > 1 ==> ps[0].kind.First? && ps[|ps| - 1].kind.Last?)
      && (forall i :: 0 < i < |ps| - 1 ==> ps[i].kind.Next?)
      && (forall i :: 0 <= i < |ps| - 1 ==> |ps[i].bytes| == CHUNK)
      && 0 < |ps[|ps| - 1].bytes| <= CHUNK
  {
    hide RestPieces;
    if |data| > CHUNK {
      RestProtocol(data[CHUNK..]);
      var rest := RestPieces(data[CHUNK..]);
      assert data == data[..CHUNK] + data[CHUNK..];
      JoinedAfter(Piece(First, data[..CHUNK]), rest);
    } else {
      JoinedAfter(Piece(One, data), []);
    }
  }

  lemma JoinedAfter(p: Piece, ps: seq<Piece>)
    ensures Joined([p] + ps) == p.bytes + Joined(ps)
  {
    assert ([p] + ps)[1..] == ps;
  }

  lemma {:induction false} RestProtocol(data: seq<byte>)
    requires data != []
    ensures var ps := RestPieces(data);
      && |ps| == Count(|data|) && Joined(ps) == data
      && ps[|ps| - 1].kind.Last? && (forall i :: 0 <= i < |ps| - 1 ==> ps[i].kind.Next? && |ps[i].bytes| == CHUNK)
      && 0 < |ps[|ps| - 1].bytes| <= CHUNK
    decreases |data|
  {
    if |data| > CHUNK {
      RestProtocol(data[CHUNK..]);
      var rest := RestPieces(data[CHUNK..]);
      assert data == data[..CHUNK] + data[CHUNK..];
      JoinedAfter(NextPiece(data), rest);
    } else {
      JoinedAfter(NextPiece(data), []);
    }
  }

  // ------------------------------------------------------------------ the verdict

  /** The answers from the first that is not Busy. */
  function Awake(answers: seq<Answer>): (a: seq<Answer>)
    ensures |a| <= |answers| && (a != [] ==> !a[0].Busy?)
    decreases |answers|
  {
    if answers != [] && answers[0].Busy? then Awake(answers[1..]) else answers
  }

  /** What `n` calls, each repeated while the server is busy, come to: how many are met before the first
      refusal, its code (SUCCESS when there is none), and the answers left over. */
  datatype Verdict = Verdict(met: nat, code: int, rest: seq<Answer>)

  function Judge(answers: seq<Answer>, n: nat): (v: Verdict)
    ensures v.met <= n && (v.code == SUCCESS <==> v.met == n) && v.code != NEED_DATA && v.code != STILL_EXECUTING
    decreases n
  {
    if n == 0 then Verdict(0, SUCCESS, answers)
    else
      var a := Awake(answers);
      if a == [] then Verdict(n, SUCCESS, [])
      else if a[0].Fail? then Verdict(0, a[0].code, a[1..])
      else
        var v := Judge(a[1..], n - 1);
        Verdict(v.met + 1, v.code, v.rest)
  }

  /** Polling is asking once the server is awake. */
  lemma {:induction false} PollWriteAwake(s: Server, amount: nat, p: Piece)
    requires s.Ok()
    ensures PollWrite(s, amount, p) == LobWrite(s.(answers := Awake(s.answers)), amount, p)
    decreases |s.answers|
  {
    if s.Now().Busy? {
      PollWriteAwake(s.Answered(), amount, p);
    }
  }

  lemma {:induction false} PollReadAwake(s: Server, amount: nat, n: nat)
    requires s.Ok()
    ensures PollRead(s, amount, n) == LobRead(s.(answers := Awake(s.answers)), amount, n)
    decreases |s.answers|
  {
    if s.Now().Busy? {
      PollReadAwake(s.Answered(), amount, n);
    }
  }

  /** The server after the pieces the verdict allows: the LOB changes only when all of them are met. */
  function Received(s: Server, ps: seq<Piece>, bytes: seq<byte>, v: Verdict): (t: Server)
    requires v.met <= |ps|
    ensures t.answers == v.rest
  {
    s.(answers := v.rest, incoming := None, accepted := s.accepted + ps[..v.met],
       contents := if v.code == SUCCESS then Overlay(s.contents, bytes) else s.contents)
  }

  /** A verdict is the verdict on the first call, then on the others. */
  lemma JudgeFirst(answers: seq<Answer>, n: nat)
    requires n > 0
    ensures var f := Judge(answers, 1);
      var w := Judge(f.rest, n - 1);
      Judge(answers, n) == if f.code == SUCCESS then Verdict(w.met + 1, w.code, w.rest) else Verdict(0, f.code, f.rest)
  {
    if Awake(answers) == [] {
      JudgeQuiet(n - 1);
    } else {
      assert Judge(Awake(answers)[1..], 0).met == 0;
    }
  }

  lemma JudgeQuiet(n: nat)
    ensures Judge([], n) == Verdict(n, SUCCESS, [])
  {
  }

  /** One piece of an open write. */
  lemma PieceOutcome(s: Server, total: nat, sent: seq<byte>, p: Piece)
    requires s.Ok() && s.incoming == Some(Incoming(total, sent)) && (p.kind.Next? || p.kind.Last?)
    requires if p.kind.Last? then |sent| + |p.bytes| == total else |sent| + |p.bytes| < total
    ensures var v := Judge(s.answers, 1);
      var s1 := s.(answers := v.rest);
      PollWrite(s, total, p) ==
        if v.code != SUCCESS then (s1.(incoming := None), v.code)
        else if p.kind.Last? then
          (s1.(incoming := None, accepted := s.accepted + [p], contents := Overlay(s.contents, sent + p.bytes)),
            SUCCESS)
        else (s1.(incoming := Some(Incoming(total, sent + p.bytes)), accepted := s.accepted + [p]), NEED_DATA)
  {
    PollWriteAwake(s, total, p);
    JudgeOne(s.answers);
  }

  lemma JudgeOne(answers: seq<Answer>)
    ensures var a := Awake(answers);
      Judge(answers, 1) == if a == [] then Verdict(1, SUCCESS, [])
        else if a[0].Fail? then Verdict(0, a[0].code, a[1..]) else Verdict(1, SUCCESS, a[1..])
  {
    if Awake(answers) != [] {
      assert Judge(Awake(answers)[1..], 0).met == 0;
    }
  }

  /** What the first piece and then the others come to, together. */
  lemma ReceivedAfter(s: Server, f: Verdict, incoming: Option<Incoming>, p: Piece, ps: seq<Piece>,
                      bytes: seq<byte>, w: Verdict)
    requires w.met <= |ps|
    ensures Received(s.(answers := f.rest, incoming := incoming, accepted := s.accepted + [p]), ps, bytes, w)
      == Received(s, [p] + ps, bytes, Verdict(w.met + 1, w.code, w.rest))
  {
    assert s.accepted + [p] + ps[..w.met] == s.accepted + ([p] + ps)[..w.met + 1];
  }

  lemma ReceivedNone(s: Server, ps: seq<Piece>, bytes: seq<byte>, v: Verdict)
    requires v.met == 0 && v.code != SUCCESS
    ensures Received(s, ps, bytes, v) == s.(answers := v.rest, incoming := None)
  {
    assert s.accepted + ps[..0] == s.accepted;
  }

  lemma ReceivedOne(s: Server, p: Piece, bytes: seq<byte>, v: Verdict)
    requires v.met == 1 && v.code == SUCCESS
    ensures Received(s, [p], bytes, v)
      == s.(answers := v.rest, incoming := None, accepted := s.accepted + [p], contents := Overlay(s.contents, bytes))
  {
    assert [p][..1] == [p];
  }

  /** The pieces after the first are all accepted, and the LOB changed, or those before the first refusal. */
  lemma {:induction false} SendRestOutcome(s: Server, total: nat, sent: seq<byte>, data: seq<byte>)
    requires s.Ok() && data != [] && s.incoming == Some(Incoming(total, sent)) && |sent| + |data| == total
    ensures var v := Judge(s.answers, Count(|data|));
      |RestPieces(data)| == Count(|data|)
        && SendRest(s, total, data) == (Received(s, RestPieces(data), sent + data, v), v.code)
    decreases |data|
  {
    hide LobWrite, Judge, PollWrite, Received, Overlay, Joined;
    RestProtocol(data);
    var p := NextPiece(data);
    var n := Count(|data|);
    PieceOutcome(s, total, sent, p);
    JudgeFirst(s.answers, n);
    var f := Judge(s.answers, 1);
    var v := Judge(s.answers, n);
    if f.code != SUCCESS {
      ReceivedNone(s, RestPieces(data), sent + data, v);
    } else if |data| > CHUNK {
      var rest := data[CHUNK..];
      var s1 := s.(answers := f.rest, incoming := Some(Incoming(total, sent + p.bytes)), accepted := s.accepted + [p]);
      SendRestOutcome(s1, total, sent + p.bytes, rest);
      SameBytes(sent, data);
      ReceivedAfter(s, f, s1.incoming, p, RestPieces(rest), sent + data, Judge(f.rest, n - 1));
    } else {
      JudgeNone(f.rest);
      assert RestPieces(data) == [p];
      ReceivedOne(s, p, sent + data, v);
    }
  }

  lemma JudgeNone(answers: seq<Answer>)
    ensures Judge(answers, 0) == Verdict(0, SUCCESS, answers)
  {
  }

  lemma SameBytes(sent: seq<byte>, data: seq<byte>)
    requires |data| > CHUNK
    ensures sent + data[..CHUNK] + data[CHUNK..] == sent + data
  {
  }

  /** The answers `sqlo_lob_write_stream` has for its pieces: one goes to OCILobOpen, if there is one. */
  function PieceAnswers(s: Server, data: seq<byte>, haveOpen: bool): seq<Answer> {
    if haveOpen && |data| > CHUNK then s.Answered().answers else s.answers
  }

  /** OCILobClose, repeated while the server is busy. */
  lemma {:induction false} PollPlainOutcome(s: Server)
    ensures var v := Judge(s.answers, 1); PollPlain(s) == (s.(answers := v.rest), v.code)
    decreases |s.answers|
  {
    JudgeOne(s.answers);
    if s.Now().Busy? {
      PollPlainOutcome(s.Answered());
      JudgeOne(s.Answered().answers);
    }
  }

  /** Where OCILobOpen is used, for more than one piece, and refuses, not just because the server is busy
      (3123), its refusal is returned and nothing is sent. Else exactly the pieces before the first refusal
      are accepted, the LOB changes only when all are, and the status is the refusal's, or ERROR for an odd
      reply to the first piece; but where there is an OCILobClose its reply takes the place of a refusal
      above zero. */
  lemma StoreOutcome(s: Server, data: seq<byte>, haveOpen: bool)
    requires s.Ok() && data != []
    ensures var v := Judge(PieceAnswers(s, data, haveOpen), Count(|data|));
      var r := Store(s, data, haveOpen);
      && |Pieces(data)| == Count(|data|)
      && (if haveOpen && |data| > CHUNK && s.Now().Fail? && s.Now().code < 0 && s.Now().errcode != 3123 then
            r.1 == s.Now().code && r.0 == s.(answers := s.answers[1..])
          else
            var t := Received(s, Pieces(data), data, v);
            if |data| <= CHUNK || v.code < 0 then r == (t, v.code)
            else if v.code > 0 && v.met == 0 then r == (t, ERROR)
            else if haveOpen then r == (t.(answers := Judge(v.rest, 1).rest), Judge(v.rest, 1).code)
            else r == (t, v.code))
  {
    hide LobWrite, Judge, PollWrite, SendRest, PollPlain, Received, Overlay, Joined, RestPieces;
    PieceProtocol(data);
    var s0 := s.(answers := PieceAnswers(s, data, haveOpen));
    var n := Count(|data|);
    JudgeFirst(s0.answers, n);
    FirstOutcome(s0, data);
    var f := Judge(s0.answers, 1);
    var v := Judge(s0.answers, n);
    ReceivedFrom(s, s0, Pieces(data), data, v);
    if f.code != SUCCESS {
      ReceivedNone(s0, Pieces(data), data, v);
    } else if |data| > CHUNK {
      var p := Piece(First, data[..CHUNK]);
      var rest := data[CHUNK..];
      var s1 := s0.(answers := f.rest, incoming := Some(Incoming(|data|, p.bytes)), accepted := s.accepted + [p]);
      assert p.bytes + rest == data;
      SendRestOutcome(s1, |data|, p.bytes, rest);
      ReceivedAfter(s0, f, s1.incoming, p, RestPieces(rest), data, Judge(f.rest, n - 1));
      PollPlainOutcome(Received(s, Pieces(data), data, v));
    } else {
      JudgeNone(f.rest);
      ReceivedOne(s0, Piece(One, data), data, v);
    }
  }

  lemma ReceivedFrom(s: Server, s0: Server, ps: seq<Piece>, bytes: seq<byte>, v: Verdict)
    requires s0 == s.(answers := s0.answers) && v.met <= |ps|
    ensures Received(s0, ps, bytes, v) == Received(s, ps, bytes, v)
  {
  }

  /** The first or only piece. */
  lemma FirstOutcome(s: Server, data: seq<byte>)
    requires s.Ok() && data != []
    ensures var f := Judge(s.answers, 1);
      var p := Pieces(data)[0];
      PollWrite(s, |data|, p) ==
        if f.code != SUCCESS then (s.(answers := f.rest, incoming := None), f.code)
        else if |data| > CHUNK then
          (s.(answers := f.rest, incoming := Some(Incoming(|data|, p.bytes)), accepted := s.accepted + [p]), NEED_DATA)
        else (s.(answers := f.rest, incoming := None, accepted := s.accepted + [p],
          contents := Overlay(s.contents, data)), SUCCESS)
  {
    var p := Pieces(data)[0];
    PollWriteAwake(s, |data|, p);
    JudgeOne(s.answers);
    assert [] + p.bytes == p.bytes;
  }

  /** The server never refuses, it is only busy at times. */
  ghost predicate NoRefusals(answers: seq<Answer>) {
    forall a <- answers :: !a.Fail?
  }

  lemma {:induction false} JudgeWilling(answers: seq<Answer>, n: nat)
    requires NoRefusals(answers)
    ensures var v := Judge(answers, n); v.met == n && v.code == SUCCESS && NoRefusals(v.rest)
    decreases n
  {
    AwakeWithin(answers);
    var a := Awake(answers);
    if n > 0 && a != [] {
      assert NoRefusals(a[1..]);
      JudgeWilling(a[1..], n - 1);
    }
  }

  lemma {:induction false} AwakeWithin(answers: seq<Answer>)
    requires NoRefusals(answers)
    ensures NoRefusals(Awake(answers))
    decreases |answers|
  {
    if answers != [] && answers[0].Busy? {
      AwakeWithin(answers[1..]);
    }
  }

  /** Whenever the server only ever keeps the client waiting, writing the file succeeds: the pieces of the file are
      accepted in order and the LOB holds it. */
  lemma StoreSucceeds(s: Server, data: seq<byte>, haveOpen: bool)
    requires s.Ok() && data != [] && NoRefusals(s.answers)
    ensures var r := Store(s, data, haveOpen);
      && r.1 == SUCCESS && NoRefusals(r.0.answers)
      && r.0 == s.(answers := r.0.answers, incoming := None, accepted := s.accepted + Pieces(data),
           contents := Overlay(s.contents, data))
  {
    hide Store, Judge, Pieces, Overlay;
    assert !s.Now().Fail?;
    StoreOutcome(s, data, haveOpen);
    var answers := PieceAnswers(s, data, haveOpen);
    assert NoRefusals(answers);
    JudgeWilling(answers, Count(|data|));
    var v := Judge(answers, Count(|data|));
    assert Pieces(data)[..v.met] == Pieces(data);
    JudgeWilling(v.rest, 1);
  }

  /** When SUCCESS means stored. A call that reports SUCCESS has stored the whole file, except where there is an
      OCILobClose and a piece after the first met a refusal above zero: that reply is lost. */
  lemma SuccessMeansStored(s: Server, data: seq<byte>, haveOpen: bool)
    requires s.Ok() && data != [] && Store(s, data, haveOpen).1 == SUCCESS
    ensures var r := Store(s, data, haveOpen).0;
      var v := Judge(PieceAnswers(s, data, haveOpen), Count(|data|));
      var stored := r.accepted == s.accepted + Pieces(data);
      && !(haveOpen && |data| > CHUNK && s.Now().Fail? && s.Now().code < 0 && s.Now().errcode != 3123)
      && (stored <==> !(haveOpen && |data| > CHUNK && v.met > 0 && v.code > 0))
      && (stored ==> r.contents == Overlay(s.contents, data)) && (!stored ==> r.contents == s.contents)
  {
    hide Store, Judge, Pieces, Overlay;
    StoreOutcome(s, data, haveOpen);
    var v := Judge(PieceAnswers(s, data, haveOpen), Count(|data|));
    assert v.code == SUCCESS ==> Pieces(data)[..v.met] == Pieces(data);
  }

  /** A refused OCILobOpen: its error is returned and the LOB is as it was. */
  lemma RefusedOpen(s: Server, data: seq<byte>)
    requires s.Ok() && |data| > CHUNK && s.answers == [Fail(ERROR, 22990)]
    ensures var r := Store(s, data, true);
      r.1 == ERROR && r.0.contents == s.contents && r.0.accepted == s.accepted
  {
    hide Store;
    StoreOutcome(s, data, true);
  }

  /** Such a loss: the second of two pieces is refused with a warning, the close is accepted, and the call
      reports SUCCESS with the LOB as it was. */
  lemma LostRefusal(data: seq<byte>)
    requires |data| == CHUNK + 1
    ensures var s := Server([], None, None, [], [Ready, Ready, Fail(1, 0), Ready]);
      Store(s, data, true).1 == SUCCESS && Store(s, data, true).0.contents == []
  {
    hide Store, Pieces, Judge, Overlay;
    var s := Server([], None, None, [], [Ready, Ready, Fail(1, 0), Ready]);
    StoreOutcome(s, data, true);
    assert PieceAnswers(s, data, true) == [Ready, Fail(1, 0), Ready];
    LateRefusal();
  }

  lemma LateRefusal()
    ensures Judge([Ready, Fail(1, 0), Ready], 2) == Verdict(1, 1, [Ready])
      && Judge([Ready], 1) == Verdict(1, SUCCESS, [])
  {
    var a := [Ready, Fail(1, 0), Ready];
    assert Awake(a) == a && a[1..] == [Fail(1, 0), Ready];
    assert Awake(a[1..]) == a[1..] && a[1..][1..] == [Ready];
    assert Judge(a[1..], 1) == Verdict(0, 1, [Ready]);
    JudgeOne([Ready]);
  }

  // --------------------------------------------------------------------- reading

  /** What the reading loop writes to the file: the bytes to come, or, when the server refuses, the pieces it
      delivered and then a piece of zeros. */
  function LoadedRest(bytes: seq<byte>, v: Verdict): seq<byte> {
    if v.code == SUCCESS || v.met * CHUNK > |bytes| then bytes
    else bytes[..v.met * CHUNK] + ZeroBytes(Min(CHUNK, |bytes| - v.met * CHUNK))
  }

  lemma {:induction false} LoadRestOutcome(s: Server, loblen: nat, left: nat)
    requires Awaits(s, loblen, left) && left > 0
    ensures var v := Judge(s.answers, Count(left));
      var bytes := s.contents[loblen - left..loblen];
      LoadRest(s, loblen, left) == (s.(answers := v.rest, outgoing := None), v.code, LoadedRest(bytes, v))
    decreases left
  {
    hide LobRead, Judge, PollRead, LoadedRest;
    var n := Count(left);
    var bytes := s.contents[loblen - left..loblen];
    ReadOutcome(s, loblen, left);
    JudgeFirst(s.answers, n);
    var f := Judge(s.answers, 1);
    var v := Judge(s.answers, n);
    if f.code != SUCCESS {
      LoadedNone(bytes, v);
    } else if left > CHUNK {
      var s1 := s.(answers := f.rest, outgoing := Some(Outgoing(loblen, loblen - (left - CHUNK))));
      LoadRestOutcome(s1, loblen, left - CHUNK);
      assert bytes == s.contents[loblen - left..loblen - left + CHUNK] + s.contents[loblen - (left - CHUNK)..loblen];
      LoadedMore(s.contents[loblen - left..loblen - left + CHUNK], s.contents[loblen - (left - CHUNK)..loblen],
        Judge(f.rest, n - 1));
    } else {
      JudgeNone(f.rest);
      LoadedAll(bytes, v);
    }
  }

  lemma LoadedNone(bytes: seq<byte>, v: Verdict)
    requires v.code != SUCCESS && v.met == 0
    ensures LoadedRest(bytes, v) == Padded([], CHUNK)[..Min(|bytes|, CHUNK)]
  {
  }

  lemma LoadedMore(piece: seq<byte>, more: seq<byte>, w: Verdict)
    requires |piece| == CHUNK
    ensures LoadedRest(piece + more, Verdict(w.met + 1, w.code, w.rest))
      == Padded(piece, CHUNK)[..CHUNK] + LoadedRest(more, w)
  {
    if w.code != SUCCESS && w.met * CHUNK <= |more| {
      assert (piece + more)[..(w.met + 1) * CHUNK] == piece + more[..w.met * CHUNK];
    }
  }

  lemma LoadedAll(bytes: seq<byte>, v: Verdict)
    requires v.code == SUCCESS && |bytes| <= CHUNK
    ensures LoadedRest(bytes, v) == Padded(bytes, CHUNK)[..|bytes|]
  {
  }

  /** One read of an open transfer. */
  lemma ReadOutcome(s: Server, loblen: nat, left: nat)
    requires Awaits(s, loblen, left) && left > 0
    ensures var f := Judge(s.answers, 1);
      var from := loblen - left;
      PollRead(s, loblen, CHUNK) ==
        if f.code != SUCCESS then (s.(answers := f.rest, outgoing := None), f.code, [])
        else if left > CHUNK then
          (s.(answers := f.rest, outgoing := Some(Outgoing(loblen, from + CHUNK))), NEED_DATA,
            s.contents[from..from + CHUNK])
        else (s.(answers := f.rest, outgoing := None), SUCCESS, s.contents[from..loblen])
  {
    PollReadAwake(s, loblen, CHUNK);
    JudgeOne(s.answers);
  }

  /** Reading ends with the status of the first refusal, if any. The file gets the LOB; a refusal of the first
      read leaves it alone, a later one leaves the pieces delivered and a piece of zeros. */
  lemma LoadOutcome(s: Server, loblen: nat)
    requires s.Ok() && s.outgoing.None? && 0 < loblen <= |s.contents|
    ensures var v := Judge(s.answers, Count(loblen));
      Load(s, loblen) == (s.(answers := v.rest), v.code,
                          if v.code != SUCCESS && v.met == 0 then [] else LoadedRest(s.contents[..loblen], v))
  {
    hide LobRead, Judge, PollRead, LoadRest, LoadedRest;
    var n := Count(loblen);
    FirstReadOutcome(s, loblen);
    JudgeFirst(s.answers, n);
    var f := Judge(s.answers, 1);
    var v := Judge(s.answers, n);
    if f.code == SUCCESS {
      if loblen > CHUNK {
        var s1 := s.(answers := f.rest, outgoing := Some(Outgoing(loblen, CHUNK)));
        LoadRestOutcome(s1, loblen, loblen - CHUNK);
        assert s.contents[..loblen] == s.contents[..CHUNK] + s.contents[CHUNK..loblen];
        LoadedMore(s.contents[..CHUNK], s.contents[CHUNK..loblen], Judge(f.rest, n - 1));
        assert Padded(s.contents[..CHUNK], CHUNK)[..CHUNK] == s.contents[..CHUNK];
      } else {
        JudgeNone(f.rest);
        LoadedAll(s.contents[..loblen], v);
        assert Padded(s.contents[..loblen], CHUNK)[..loblen] == s.contents[..loblen];
      }
    }
  }

  lemma FirstReadOutcome(s: Server, loblen: nat)
    requires s.Ok() && s.outgoing.None? && 0 < loblen <= |s.contents|
    ensures var f := Judge(s.answers, 1);
      PollRead(s, loblen, Min(loblen, CHUNK)) ==
        if f.code != SUCCESS then (s.(answers := f.rest), f.code, [])
        else if loblen > CHUNK then
          (s.(answers := f.rest, outgoing := Some(Outgoing(loblen, CHUNK))), NEED_DATA, s.contents[..CHUNK])
        else (s.(answers := f.rest), SUCCESS, s.contents[..loblen])
  {
    PollReadAwake(s, loblen, Min(loblen, CHUNK));
    JudgeOne(s.answers);
  }

  /** The LOB round trip: for every file of at least one byte and every finite pattern of STILL_EXECUTING
      replies, writing the file and reading it back both succeed and give the file, whatever the LOB held before. */
  lemma RoundTrip(s: Server, data: seq<byte>, haveOpen: bool)
    requires s.Ok() && s.outgoing.None? && data != [] && NoRefusals(s.answers)
    ensures var w := Store(s, data, haveOpen);
      && w.1 == SUCCESS && w.0.outgoing.None? && |data| <= |w.0.contents|
      && var r := Load(w.0, |data|); r.1 == SUCCESS && r.2 == data && r.0.contents == w.0.contents
  {
    hide Store, Load, Judge;
    StoreSucceeds(s, data, haveOpen);
    var w := Store(s, data, haveOpen).0;
    JudgeWilling(w.answers, Count(|data|));
    LoadOutcome(w, |data|);
    assert w.contents[..|data|] == data;
  }

  /** Even with refusals: a successful read gives exactly the LOB's first `loblen` bytes. */
  lemma SuccessMeansLoaded(s: Server, loblen: nat)
    requires s.Ok() && s.outgoing.None? && 0 < loblen <= |s.contents|
    ensures var r := Load(s, loblen); r.1 == SUCCESS ==> r.2 == s.contents[..loblen]
  {
    hide Load, Judge;
    LoadOutcome(s, loblen);
  }

  // ----------------------------------------------------------------- the objects

  /** A file open for reading, at `pos`. */
  class InFile {
    const content: seq<byte>
    var pos: nat
    var eof: bool

    ghost predicate Valid()
      reads this
    {
      pos <= |content| && (eof ==> pos == |content|)
    }

    /** What is left to read. */
    ghost function Left(): seq<byte>
      requires Valid()
      reads this
    {
      content[pos..]
    }

    constructor (content: seq<byte>)
      ensures Valid() && Left() == content && !eof
    {
      this.content := content;
      pos, eof := 0, false;
    }

    /** fread of one item of `n` bytes. A short file leaves what it had in the buffer. */
    method Read(buf: array<byte>, n: nat) returns (items: nat)
      requires Valid() && n <= buf.Length
      modifies this, buf
      ensures Valid() && (items == 1 <==> 0 < n <= |old(Left())|)
      ensures items == 1 ==> buf[..n] == old(Left())[..n] && Left() == old(Left())[n..] && eof == old(eof)
      ensures n == 0 ==> pos == old(pos) && eof == old(eof)
    {
      if n == 0 {
        return 0;
      }
      var m := Min(n, |content| - pos);
      CopyIn(buf, content[pos..pos + m]);
      pos := pos + m;
      items := if m == n then 1 else 0;
      if m < n {
        eof := true;
      }
    }
  }

  method CopyIn(buf: array<byte>, bytes: seq<byte>)
    requires |bytes| <= buf.Length
    modifies buf
    ensures buf[..] == bytes + old(buf[..])[|bytes|..]
  {
    var i := 0;
    while i < |bytes|
      invariant i <= |bytes|
      invariant forall j :: 0 <= j < buf.Length ==> buf[j] == if j < i then bytes[j] else old(buf[j])
    {
      buf[i] := bytes[i];
      i := i + 1;
    }
  }

  /** A file open for writing. */
  class OutFile {
    var content: seq<byte>

    constructor ()
      ensures content == []
    {
      content := [];
    }

    /** fwrite of one item of `n` bytes. */
    method Write(buf: array<byte>, n: nat)
      requires n <= buf.Length
      modifies this
      ensures content == old(content) + buf[..n]
    {
      content := content + buf[..n];
    }
  }

  /** The connection, as far as LOB calls use it. */
  class LobConnection {
    const haveOpen: bool
    var status: int
    var errcode: int
    var server: Server

    constructor (server: Server, haveOpen: bool)
      ensures this.server == server && this.haveOpen == haveOpen
    {
      this.server, this.haveOpen := server, haveOpen;
      status, errcode := SUCCESS, 0;
    }

    /** `sqlo_lob_write_buffer`: a first piece that is the whole LOB is sent as the only one. */
    method WriteBuffer(loblen: ub4, buf: array<byte>, bufl: ub4, kind: Kind) returns (st: int)
      requires server.Ok() && bufl <= buf.Length
      modifies this`server, this`status
      ensures var p := Piece(if loblen <= bufl && kind.First? then One else kind, buf[..Min(loblen, bufl)]);
        (server, st) == LobWrite(old(server), loblen, p) && st == status
    {
      var nbytes: ub4 := if loblen < bufl then loblen else bufl;
      var p := if loblen <= bufl && kind.First? then One else kind;
      var r := LobWrite(server, loblen, Piece(p, buf[..nbytes]));
      server, status := r.0, r.1;
      st := status;
    }

    /** Calling it while the server is busy. */
    method WriteBufferOut(loblen: ub4, buf: array<byte>, bufl: ub4, kind: Kind)
      requires server.Ok() && bufl <= buf.Length && (kind.First? ==> bufl < loblen) && bufl <= loblen
      modifies this`server, this`status
      ensures (server, status) == PollWrite(old(server), loblen, Piece(kind, buf[..bufl]))
    {
      hide LobWrite;
      var st := WriteBuffer(loblen, buf, bufl, kind);
      while status == STILL_EXECUTING
        invariant server.Ok()
        invariant PollWrite(old(server), loblen, Piece(kind, buf[..bufl]))
          == if status == STILL_EXECUTING then PollWrite(server, loblen, Piece(kind, buf[..bufl])) else (server, status)
        decreases status == STILL_EXECUTING, |server.answers|
      {
        st := WriteBuffer(loblen, buf, bufl, kind);
      }
    }

    /** OCILobOpen; tells whether its failure counts. */
    method Open() returns (ok: bool)
      modifies this`server, this`status, this`errcode
      ensures (server, status) == Plain(old(server)) && (ok <==> OpenOverlooked(old(server).Now()))
    {
      errcode := match server.Now() case Busy => BUSY_CODE case Fail(_, e) => e case Ready => 0;
      var r := Plain(server);
      server, status := r.0, r.1;
      ok := 0 <= status || errcode == BUSY_CODE;
    }

    /** The OCILobClose loop. */
    method CloseOut()
      modifies this`server, this`status
      ensures (server, status) == PollPlain(old(server))
    {
      var r := Plain(server);
      server, status := r.0, r.1;
      while status == STILL_EXECUTING
        invariant PollPlain(old(server)) == if status == STILL_EXECUTING then PollPlain(server) else (server, status)
        decreases status == STILL_EXECUTING, |server.answers|
      {
        r := Plain(server);
        server, status := r.0, r.1;
      }
    }

    /** `sqlo_lob_write_stream`. From a file with at least `filelen` bytes left it does what `Store` does with
        them; if there is not even a first piece it is an error and nothing is sent. */
    method WriteStream(filelen: ub4, fp: InFile) returns (st: int)
      requires server.Ok() && fp.Valid()
      modifies this, fp
      ensures fp.Valid() && server.Ok()
      ensures filelen == 0 || |old(fp.Left())| < Min(filelen, CHUNK) ==> st == ERROR && server == old(server)
      ensures 0 < filelen <= |old(fp.Left())| ==>
        (server, st) == Store(old(server), old(fp.Left())[..filelen], haveOpen)
    {
      hide PollWrite, SendRest, PollPlain;
      var buf := new byte[CHUNK];
      var remainder: ub4 := filelen;
      var nbytes: ub4 := if filelen > CHUNK then CHUNK else filelen;
      ghost var data := fp.Left()[..Min(filelen, |fp.Left()|)];
      var items := fp.Read(buf, nbytes);
      if items != 1 {
        status := ERROR;
        return status;
      }
      remainder := remainder - nbytes;
      if remainder == 0 {
        assert buf[..nbytes] == fp.content[old(fp.pos)..old(fp.pos) + filelen] == data;
        WriteBufferOut(nbytes, buf, nbytes, One);
        return status;
      }
      assert filelen <= |old(fp.Left())| ==> buf[..nbytes] == data[..CHUNK] && fp.Left()[..remainder] == data[CHUNK..];
      if haveOpen {
        var ok := Open();
        if !ok {
          return status;
        }
      }
      WriteBufferOut(filelen, buf, nbytes, First);
      if status != NEED_DATA {
        return if status < 0 then status else ERROR;
      }
      remainder := SendPieces(filelen, remainder, buf, fp);
      if status < 0 {
        return status;
      }
      if haveOpen {
        CloseOut();
      }
      st := status;
    }

    /** Its loop over the remaining pieces. The remainder never wraps: it is counted down to exactly 0 when every
        piece is accepted. */
    method SendPieces(filelen: ub4, rest: ub4, buf: array<byte>, fp: InFile) returns (remainder: ub4)
      requires server.Ok() && fp.Valid() && buf.Length == CHUNK && 0 < rest < filelen && status == NEED_DATA
      modifies this`server, this`status, buf, fp
      ensures fp.Valid() && server.Ok() && (status == SUCCESS && rest <= |old(fp.Left())| ==> remainder == 0)
      ensures rest <= |old(fp.Left())| ==> (server, status) == SendRest(old(server), filelen, old(fp.Left())[..rest])
    {
      hide PollWrite;
      ghost var enough := rest <= |fp.Left()|;
      ghost var data := if enough then fp.Left()[..rest] else [];
      remainder := rest;
      var more := true;
      while more
        invariant fp.Valid() && server.Ok() && (more ==> 0 < remainder < filelen)
        invariant enough && more ==> remainder <= |fp.Left()|
        invariant enough ==>
          SendRest(old(server), filelen, data)
            == (if more then SendRest(server, filelen, fp.Left()[..remainder]) else (server, status))
        invariant enough && !more && status == SUCCESS ==> remainder == 0
        decreases more, remainder
      {
        more, remainder := SendPiece(filelen, remainder, buf, fp);
      }
    }

    /** One round of that loop. */
    method SendPiece(filelen: ub4, left: ub4, buf: array<byte>, fp: InFile) returns (more: bool, remainder: ub4)
      requires server.Ok() && fp.Valid() && buf.Length == CHUNK && 0 < left < filelen
      modifies this`server, this`status, buf, fp
      ensures fp.Valid() && server.Ok() && (more ==> 0 < remainder < left)
      ensures left <= |old(fp.Left())| ==>
        var data := old(fp.Left())[..left];
        && (status == SUCCESS && !more ==> remainder == 0)
        && (more ==> remainder <= |fp.Left()|)
        && SendRest(old(server), filelen, data)
             == (if more then SendRest(server, filelen, fp.Left()[..remainder]) else (server, status))
    {
      hide PollWrite;
      ghost var was := fp.Left();
      var nbytes: ub4 := CHUNK;
      var piece := Next;
      if left <= CHUNK {
        nbytes := left;
        piece := Last;
      }
      var items := fp.Read(buf, nbytes);
      if items != 1 {
        piece := Last;
      }
      assert left <= |was| ==> Piece(piece, buf[..nbytes]) == NextPiece(was[..left]);
      WriteBufferOut(filelen, buf, nbytes, piece);
      if status < 0 {
        return false, left;
      }
      remainder := left - nbytes;
      more := status == NEED_DATA && !fp.eof;
      assert left <= |was| && more ==> was[..left][CHUNK..] == fp.Left()[..remainder];
    }

    // ------------------------------------------------------------------ reading

    /** `sqlo_lob_read_buffer`. */
    method ReadBuffer(loblen: ub4, buf: array<byte>, bufl: ub4) returns (st: int)
      requires server.Ok() && bufl <= buf.Length
      modifies this`server, this`status, buf
      ensures var r := LobRead(old(server), loblen, Min(loblen, bufl));
        server == r.0 && st == status == r.1 && buf[..] == r.2 + old(buf[..])[|r.2|..]
    {
      var r := LobRead(server, loblen, if loblen < bufl then loblen else bufl);
      server, status := r.0, r.1;
      CopyIn(buf, r.2);
      st := status;
    }

    /** Calling it while the server is busy. */
    method ReadBufferOut(loblen: ub4, buf: array<byte>, bufl: ub4)
      requires server.Ok() && bufl <= buf.Length && bufl <= loblen
      modifies this`server, this`status, buf
      ensures var r := PollRead(old(server), loblen, bufl);
        server == r.0 && status == r.1 && buf[..] == r.2 + old(buf[..])[|r.2|..]
    {
      hide LobRead;
      ghost var want := PollRead(server, loblen, bufl);
      var st := ReadBuffer(loblen, buf, bufl);
      while status == STILL_EXECUTING
        invariant server.Ok()
        invariant status == STILL_EXECUTING ==> want == PollRead(server, loblen, bufl) && buf[..] == old(buf[..])
        invariant status != STILL_EXECUTING ==>
          server == want.0 && status == want.1 && buf[..] == want.2 + old(buf[..])[|want.2|..]
        decreases status == STILL_EXECUTING, |server.answers|
      {
        st := ReadBuffer(loblen, buf, bufl);
      }
    }

    /** `sqlo_lob_read_stream`, asked for no more than the LOB holds. */
    method ReadStream(loblen: ub4, fp: OutFile) returns (st: int)
      requires server.Ok() && server.outgoing.None? && loblen <= |server.contents|
      modifies this, fp
      ensures var r := Load(old(server), loblen);
        server == r.0 && st == r.1 && fp.content == old(fp.content) + r.2
    {
      hide PollRead, LoadRest;
      var buf := new byte[CHUNK];
      var nbytes: ub4 := if loblen > CHUNK then CHUNK else loblen;
      status := SUCCESS;
      FirstRead(server, loblen);
      ReadBufferOut(loblen, buf, nbytes);
      if status == SUCCESS {
        fp.Write(buf, loblen);
      } else if status == NEED_DATA {
        fp.Write(buf, nbytes);
        ReadPieces(loblen, buf, fp);
      }
      st := status;
    }

    /** Its loop, after a first full piece. */
    method ReadPieces(loblen: ub4, buf: array<byte>, fp: OutFile)
      requires buf.Length == CHUNK < loblen && Awaits(server, loblen, loblen - CHUNK) && status == NEED_DATA
      modifies this`server, this`status, buf, fp
      ensures var r := LoadRest(old(server), loblen, loblen - CHUNK);
        server == r.0 && status == r.1 && fp.content == old(fp.content) + r.2
    {
      hide LoadRest;
      ghost var want := LoadRest(server, loblen, loblen - CHUNK);
      var remainder: ub4 := loblen;
      while status == NEED_DATA
        invariant server.Ok()
        invariant status == NEED_DATA ==>
          && CHUNK <= remainder && Awaits(server, loblen, remainder - CHUNK)
          && var r := LoadRest(server, loblen, remainder - CHUNK);
             want.0 == r.0 && want.1 == r.1 && old(fp.content) + want.2 == fp.content + r.2
        invariant status != NEED_DATA ==> server == want.0 && status == want.1 && fp.content == old(fp.content) + want.2
        decreases status == NEED_DATA, remainder
      {
        forall i | 0 <= i < CHUNK {
          buf[i] := 0;
        }
        remainder := remainder - CHUNK;
        ReadPiece(loblen, remainder, buf, fp);
      }
    }

    /** One round of that loop, the buffer zeroed. */
    method ReadPiece(loblen: ub4, remainder: ub4, buf: array<byte>, fp: OutFile)
      requires buf.Length == CHUNK < loblen && Awaits(server, loblen, remainder)
        && (forall i :: 0 <= i < CHUNK ==> buf[i] == 0)
      modifies this`server, this`status, buf, fp
      ensures server.Ok() && (status == NEED_DATA ==> CHUNK < remainder && Awaits(server, loblen, remainder - CHUNK))
      ensures var r := LoadRest(old(server), loblen, remainder);
        if status == NEED_DATA then
          var more := LoadRest(server, loblen, remainder - CHUNK);
          r.0 == more.0 && r.1 == more.1 && old(fp.content) + r.2 == fp.content + more.2
        else server == r.0 && status == r.1 && fp.content == old(fp.content) + r.2
    {
      hide PollRead;
      NextRead(server, loblen, remainder);
      assert buf[..] == ZeroBytes(CHUNK);
      ghost var r := PollRead(server, loblen, CHUNK);
      ReadBufferOut(loblen, buf, CHUNK);
      assert buf[..] == Padded(r.2, CHUNK);
      if remainder < CHUNK {
        fp.Write(buf, remainder);
      } else {
        fp.Write(buf, CHUNK);
      }
      assert fp.content == old(fp.content) + Padded(r.2, CHUNK)[..Min(remainder, CHUNK)];
    }
  }

  /** A first read that is answered SUCCESS delivers all that was asked for, and NEED_DATA a full buffer of it. */
  lemma FirstRead(s: Server, loblen: nat)
    requires s.Ok() && s.outgoing.None? && loblen <= |s.contents|
    ensures var r := PollRead(s, loblen, Min(loblen, CHUNK));
      && (r.1 == SUCCESS ==> |r.2| == loblen <= CHUNK)
      && (r.1 == NEED_DATA ==> |r.2| == CHUNK < loblen && Awaits(r.0, loblen, loblen - CHUNK))
  {
    PollReadAwake(s, loblen, Min(loblen, CHUNK));
  }

  lemma NextRead(s: Server, loblen: nat, left: nat)
    requires Awaits(s, loblen, left)
    ensures var r := PollRead(s, loblen, CHUNK); r.1 == NEED_DATA ==> CHUNK < left && Awaits(r.0, loblen, left - CHUNK)
  {
    PollReadAwake(s, loblen, CHUNK);
  }
}
