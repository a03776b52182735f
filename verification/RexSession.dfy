/**
 rexsess: the agent's end of a REX session. Connecting, spawning, attaching, resuming,
 probing and agent forwarding are all driven by callbacks; here each callback is a step
 on the session's fields.
 */
module RexSession {

  /** A queued request: a rex request (perhaps of a resumable client) or a keepalive. */
  datatype Req = Req(id: nat, rex: bool, resumable: bool, block: bool)

  /** The RPC that `cbase` stands for. */
  datatype Call = NoCall | SpawnCall | AttachCall

  /** A sequence number was used to attach, or given to the client of a request. */
  datatype Grant = ToAttach(seqno: nat) | ToClient(seqno: nat, id: nat)

  /** A session's client counters and next sequence number, with what its users have seen:
      requests taken, those answered, those of them refused, the accepted clients not yet dead
      (and whether resumable), and the sequence numbers given out. */
  datatype Book = Book(clients: int, resumableClients: int, seqno: nat, taken: nat,
                       done: seq<nat>, refused: seq<nat>, answered: map<nat, bool>, issued: seq<Grant>)
  {
    /** One more request was taken. */
    function Noted(): Book {
      this.(taken := taken + 1)
    }

    /** rex_seqno++ */
    function Issue(g: Grant): Book {
      this.(seqno := seqno + 1, issued := issued + [g])
    }

    /** rex_reply with an error: the client is gone. */
    function Refuse(r: Req): Book {
      this.(clients := clients - 1,
            resumableClients := if r.resumable then resumableClients - 1 else resumableClients)
    }

    /** rex_reply: the client gets the next sequence number. */
    function Accept(r: Req): Book {
      Issue(ToClient(seqno, r.id)).(answered := answered[r.id := r.resumable])
    }

    /** finish: the request's callback is called. */
    function Finish(r: Req, error: bool): Book {
      var t := this.(done := done + [r.id], refused := if error then refused + [r.id] else refused);
      if !r.rex then t else if error then t.Refuse(r) else t.Accept(r)
    }

    function FinishAll(q: seq<Req>, error: bool): Book
      decreases |q|
    {
      if q == [] then this else Finish(q[0], error).FinishAll(q[1..], error)
    }
  }

  function NextDelay(d: nat): nat {
    if d == 0 then 15 else if 2 * d < 3600 then 2 * d else 3600
  }

  predicate HasRex(q: seq<Req>) {
    exists i :: 0 <= i < |q| && q[i].rex
  }

  /** The fields of a session: handles as whether they are set, `sess` and `sessconn` as
      whether they exist; `resumable` is the flag of `sess`. */
  datatype Session = Session(
    live: bool,
    backoffcb: bool, conpending: bool, rcpending: bool, cbase: Call, resumepending: bool,
    sessconn: bool, sess: bool, resumable: bool, probecall: bool,
    reqs: seq<Req>, afreqs: seq<Req>, afpending: bool, agentforwarded: bool,
    reaper: bool, retryDelay: nat, book: Book)
  {
    predicate Connecting() {
      backoffcb || conpending || rcpending || cbase != NoCall || resumepending
    }

    function Cancelled(): Session {
      this.(probecall := false, backoffcb := false, conpending := false, rcpending := false,
            cbase := NoCall, resumepending := false)
    }

    function ConnectInner(): Session {
      if sessconn && sess then this.(backoffcb := false, rcpending := true)
      else this.(backoffcb := false, conpending := true)
    }

    function Connect(): Session {
      this.(retryDelay := 15).ConnectInner()
    }

    /** backoff (retry_delay, 15, 3600, connect_inner) */
    function Backoff(): Session {
      this.(backoffcb := true, retryDelay := NextDelay(retryDelay))
    }

    // ----- Answering requests

    /** Each request of `q` is answered; a refused client updates the flag of `sess`,
        unless a connection attempt is under way. */
    function FinishAll(q: seq<Req>, error: bool): Session {
      var b := book.FinishAll(q, error);
      this.(book := b,
            resumable := if error && HasRex(q) && sess && !Connecting() then b.resumableClients > 0 else resumable)
    }

    function AfInit(): Session {
      this.(afpending := true)
    }

    function AlertActive(): Session {
      var t := this.(reqs := []).FinishAll(reqs, false);
      if t.afreqs != [] && !t.agentforwarded && !t.afpending then t.AfInit() else t
    }

    function AlertBadConnect(): Session {
      this.(reqs := Blocking(reqs, true), afreqs := Blocking(afreqs, true))
          .FinishAll(Blocking(reqs, false), true).FinishAll(Blocking(afreqs, false), true)
    }

    function AlertFail(): Session {
      this.(reqs := [], afreqs := []).FinishAll(reqs, true).FinishAll(afreqs, true)
    }

    function Fail(): Session {
      Cancelled().AlertFail().(live := false)
    }

    // ----- Callbacks

    /** connected: `heard` if the proxy was heard since the probe, `ok` if there is a
        connection, `same` if it is the one in use, `secure` if encrypted and authenticated. */
    function Connected(force: bool, heard: bool, ok: bool, same: bool, secure: bool): Session {
      var t := this.(rcpending := false, conpending := false);
      if !force && sess && heard then t.AlertActive()
      else if !ok then
        var u := t.AlertBadConnect();
        if u.sess && u.resumable && u.reqs != [] then u.Backoff() else u.Fail()
      else if same then t.Backoff()
      else if sess then t.(sessconn := true).Attach()
      else if !secure then t.(sessconn := true, conpending := true)
      else t.(sessconn := true).Spawn(true)
    }

    function ConnectedCrypt(force: bool, heard: bool, ok: bool, same: bool, secure: bool): Session {
      if ok then Connected(force, heard, ok, same, secure) else Fail()
    }

    function Spawn(encrypting: bool): Session {
      if encrypting then this.(cbase := SpawnCall) else this.(conpending := true)
    }

    function Spawned(ok: bool): Session {
      var t := this.(cbase := NoCall);
      if ok then t.Attach() else t.Fail()
    }

    function Attach(): Session {
      this.(book := book.Issue(ToAttach(book.seqno)), cbase := AttachCall)
    }

    /** attached; an existing session resumes, if it still can and the connection takes it
        (`started`), and otherwise calls back at once. */
    function Attached(ok: bool, started: bool): Session {
      var t := this.(cbase := NoCall);
      if !ok then t.Fail()
      else if sess then
        var u := t.(probecall := false);
        if resumable && started then u.(resumepending := true) else u.ResumeDone(false)
      else t.(sess := true, resumable := book.resumableClients > 0).AlertActive()
    }

    function ResumeDone(success: bool): Session {
      var t := this.(resumepending := false);
      if success then t.AlertActive() else t.Fail()
    }

    function ProxyFail(): Session {
      if resumepending then this
      else if resumable then Cancelled().Connect()
      else Fail()
    }

    function ProxyTimeout(): Session {
      if resumable && !Connecting() then Connect() else this
    }

    function Probed(ok: bool): Session {
      var t := this.(probecall := false);
      if !ok then t.ProxyFail()
      else if resumepending then t
      else t.Cancelled().AlertActive()
    }

    function ProbeTimeout(): Session {
      if Connecting() then this else Connect()
    }

    function AfInitDone(ok: bool): Session {
      this.(afpending := false, agentforwarded := ok, afreqs := []).FinishAll(afreqs, false)
    }

    function ClientDied(id: nat): Session
      requires id in book.answered
    {
      var rc := if book.answered[id] then book.resumableClients - 1 else book.resumableClients;
      this.(book := book.(clients := book.clients - 1, resumableClients := rc, answered := book.answered - {id}),
            resumable := rc > 0, reaper := reaper || book.clients - 1 == 0)
    }

    // ----- Requests

    function TakeRequest(r: Req, forward: bool, heard: bool): Session {
      var t := this.(book := book.Noted());
      if forward && !agentforwarded then
        var u := t.(afreqs := afreqs + [r]);
        if !afpending && !Connecting() then u.AfInit() else u
      else if Connecting() then t.(reqs := reqs + [r])
      else if r.block && !(sess && heard) then t.(reqs := reqs + [r], probecall := true)
      else t.FinishAll([r], false)
    }

    /** One more client is counted; the session must not be reaped now. */
    function Joined(res: bool): Session {
      var rc := if res then book.resumableClients + 1 else book.resumableClients;
      this.(book := book.(clients := book.clients + 1, resumableClients := rc), reaper := false, retryDelay := 0,
            resumable := if Connecting() then resumable else rc > 0)
    }

    function RexRequest(forward: bool, block: bool, res: bool, heard: bool): Session {
      Joined(res).TakeRequest(Req(book.taken, true, res, block), forward, heard)
    }

    function Keepalive(heard: bool): Session {
      this.(retryDelay := 0).TakeRequest(Req(book.taken, false, false, true), false, heard)
    }
  }

  /** The requests of a queue that can, or cannot, outlast a failed connection attempt. */
  function Blocking(q: seq<Req>, block: bool): seq<Req> {
    if q == [] then []
    else (if q[0].block == block then [q[0]] else []) + Blocking(q[1..], block)
  }

  /** A new session: connecting, with its first request if there is one. */
  function Created(): Session {
    Session(true, false, false, false, NoCall, false, false, false, false, false, [], [], false, false,
            false, 0, Book(0, 0, 1, 0, [], [], map[], [])).Connect()
  }

  // ----- Runs

  datatype Step =
    | RexRequest(forward: bool, block: bool, res: bool, heard: bool)
    | Keepalive(heard: bool)
    | BackoffFires
    | Connected(force: bool, heard: bool, ok: bool, same: bool, secure: bool)
    | ConnectedCrypt(force: bool, heard: bool, ok: bool, same: bool, secure: bool)
    | Spawned(ok: bool)
    | Attached(ok: bool, started: bool)
    | Resumed(ok: bool)
    | Probed(ok: bool)
    | ProbeTimeout
    | ProxyFail
    | ProxyTimeout
    | AfInitDone(ok: bool)
    | ClientDied(id: nat)
    | Reaped
    | Killed

  /** A callback fires only while its handle is set. */
  predicate Enabled(s: Session, a: Step) {
    && s.live
    && match a
       case RexRequest(_, _, _, _) => true
       case Keepalive(_) => true
       case BackoffFires => s.backoffcb
       case Connected(_, _, _, same, _) => (s.conpending || s.rcpending) && (same ==> s.sessconn)
       case ConnectedCrypt(_, _, _, same, _) => s.conpending && (same ==> s.sessconn)
       case Spawned(_) => s.cbase == SpawnCall
       case Attached(_, _) => s.cbase == AttachCall
       case Resumed(_) => s.resumepending
       case Probed(_) => s.probecall
       case ProbeTimeout => true
       case ProxyFail => s.sess
       case ProxyTimeout => s.sess
       case AfInitDone(_) => s.afpending
       case ClientDied(id) => id in s.book.answered
       case Reaped => s.reaper
       case Killed => s.sess
  }

  function Next(s: Session, a: Step): Session
    requires Enabled(s, a)
  {
    match a
    case RexRequest(forward, block, res, heard) => s.RexRequest(forward, block, res, heard)
    case Keepalive(heard) => s.Keepalive(heard)
    case BackoffFires => s.ConnectInner()
    case Connected(force, heard, ok, same, secure) => s.Connected(force, heard, ok, same, secure)
    case ConnectedCrypt(force, heard, ok, same, secure) => s.ConnectedCrypt(force, heard, ok, same, secure)
    case Spawned(ok) => s.Spawned(ok)
    case Attached(ok, started) => s.Attached(ok, started)
    case Resumed(ok) => s.ResumeDone(ok)
    case Probed(ok) => s.Probed(ok)
    case ProbeTimeout => s.ProbeTimeout()
    case ProxyFail => s.ProxyFail()
    case ProxyTimeout => s.ProxyTimeout()
    case AfInitDone(ok) => s.AfInitDone(ok)
    case ClientDied(id) => s.ClientDied(id)
    case Reaped => s.(reaper := false, live := false)
    case Killed => s.(live := false)
  }

  ghost predicate Run(b: seq<Session>, a: seq<Step>) {
    && |b| == |a| + 1
    && b[0] == Created()
    && forall i :: 0 <= i < |a| ==> Enabled(b[i], a[i]) && b[i + 1] == Next(b[i], a[i])
  }
}
