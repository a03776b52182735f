/**
 Resumable RPC as a distributed protocol: a client that retransmits its outstanding
 calls after every reconnection, a server with a replay cache, and one pair of FIFO
 streams per connection. A connection that breaks loses whatever was not read from its
 streams; each side moves to a newer connection on its own.
 */
module ResumeProtocol {
  import opened Octets
  import opened ReplayCache
  import opened ResumableServer

  /** `sndbufsz`: the server's socket send buffer size, or no positive number if unknown.
      `quiet`: no call is issued between pre_resume and post_resume. `leaves`: a client that
      read a reply and kept its call answers nothing it reads later on that connection. */
  datatype Config = Config(sndbufsz: int, quiet: bool, leaves: bool)

  /** Client to server: calls, and replies to the server's own calls on the connection. */
  datatype Up = Call(x: Xid) | RevReply(k: Xid)

  /** Server to client; `end` is the byte offset of the end of the message. */
  datatype Down = Reply(x: Xid, res: Bytes, end: nat) | RevCall(k: Xid, end: nat)

  /** All that was ever written to a connection, what the server read of it, and how much
      the client had written when it read each message of `down`. `kept` are the replies
      (positions in `down`) it read without completing the call: they did not decode, or
      came while it was stopped. */
  datatype Conn = Conn(up: seq<Up>, read: nat, down: seq<Down>, gotAt: seq<nat>, kept: set<nat>)

  /** `calls` are outstanding, oldest first; `ord` numbers every call ever issued. */
  datatype Client = Client(calls: seq<Xid>, ord: map<Xid, nat>, accepted: map<Xid, Bytes>,
                           resuming: bool, eof: bool)

  /** The client is on the last connection, the server on connection `at`. `revs` are the
      server's own outstanding calls, `executed` logs every dispatch to the service and
      `results` what the service answered. */
  datatype State = State(client: Client, conns: seq<Conn>, at: nat, server: Server,
                         revs: map<Xid, nat>, executed: seq<Xid>, results: map<Xid, Bytes>)

  datatype Step =
    | Issue(x: Xid)
    | Cancel(x: Xid)
    | ClientEof
    | PreResume
    | PostResume(n: nat)
    | ClientRecv
    | ClientKeep
    | SendRevReply(k: Xid)
    | ServerRecv
    | ServerSkip(forget: bool)
    | ServerReply(x: Xid, res: Bytes)
    | SendRevCall(k: Xid, len: nat)
    | ResendRevCall(k: Xid, len: nat)
    | ServerEof
    | ServerResume(n: nat)

  const FreshConn := Conn([], 0, [], [], {})

  function Init(): State {
    State(Client([], map[], map[], false, false), [FreshConn], 0,
          Server(map[], [], 0, 0, false), map[], [], map[])
  }

  /** The messages by which `post_resume` retransmits. */
  function CallsOf(q: seq<Xid>): seq<Up> {
    seq(|q|, i requires 0 <= i < |q| => Call(q[i]))
  }

  function WriteUp(s: State, msgs: seq<Up>): State
    requires s.conns != []
  {
    var n := |s.conns| - 1;
    s.(conns := s.conns[n := s.conns[n].(up := s.conns[n].up + msgs)])
  }

  function WriteDown(s: State, msgs: seq<Down>): State
    requires s.at < |s.conns|
  {
    s.(conns := s.conns[s.at := s.conns[s.at].(down := s.conns[s.at].down + msgs)])
  }

  /** Message `i` comes before every reply whose call was kept. */
  ghost predicate Clear(c: Conn, i: nat) {
    forall j :: j in c.kept ==> i <= j
  }

  /** The client has read the server's call `k`, and may answer it. */
  ghost predicate Heard(c: Conn, k: Xid, leaves: bool) {
    exists i :: 0 <= i < |c.gotAt| && i < |c.down| && c.down[i].RevCall? && c.down[i].k == k && (leaves ==> Clear(c, i))
  }

  predicate Unused(d: seq<Down>, k: Xid) {
    forall i :: 0 <= i < |d| && d[i].RevCall? ==> d[i].k != k
  }

  ghost predicate Enabled(cfg: Config, s: State, a: Step) {
    && s.conns != [] && s.at < |s.conns|
    && var last, cur := s.conns[|s.conns| - 1], s.conns[s.at];
       match a
       case Issue(x) => x !in s.client.ord && (cfg.quiet ==> !s.client.resuming)
       case Cancel(x) => x in s.client.calls
       case ClientEof => true
       case PreResume => true
       case PostResume(n) => s.client.resuming && n <= |s.client.calls| && (s.client.eof ==> n == 0)
       case ClientRecv => !s.client.eof && |last.gotAt| < |last.down|
       case ClientKeep =>
         && !s.client.eof && |last.gotAt| < |last.down|
         && last.down[|last.gotAt|].Reply? && last.down[|last.gotAt|].x in s.client.calls
       case SendRevReply(k) => !s.client.eof && Heard(last, k, cfg.leaves)
       case ServerRecv => !s.server.eof && cur.read < |cur.up|
       case ServerSkip(_) => !s.server.eof && cur.read < |cur.up| && cur.up[cur.read].RevReply?
       case ServerReply(x, res) => x in s.server.rtab && s.server.rtab[x].Pending?
       case SendRevCall(k, len) => !s.server.eof && Unused(cur.down, k)
       case ResendRevCall(k, len) => !s.server.eof && Unused(cur.down, k)
       case ServerEof => true
       case ServerResume(n) => s.at < n < |s.conns|
  }

  /** The client reads its next message: a reply completes its call, if outstanding. */
  function ClientRead(s: State): State
    requires s.conns != [] && var c := s.conns[|s.conns| - 1]; |c.gotAt| < |c.down|
  {
    var n := |s.conns| - 1;
    var c := s.conns[n];
    var t := s.(conns := s.conns[n := c.(gotAt := c.gotAt + [|c.up|])]);
    match c.down[|c.gotAt|]
    case RevCall(_, _) => t
    case Reply(x, res, _) =>
      if x in s.client.calls then
        t.(client := s.client.(calls := Keep(s.client.calls, {x}), accepted := s.client.accepted[x := res]))
      else t
  }

  /** The client reads a reply, but the call stays outstanding: aclnt_resumable::handle_err, or
      a stopped client. */
  function ClientKept(s: State): State
    requires s.conns != []
  {
    var n := |s.conns| - 1;
    var c := s.conns[n];
    s.(conns := s.conns[n := c.(gotAt := c.gotAt + [|c.up|], kept := c.kept + {|c.gotAt|})])
  }

  /** The server reads a reply that does not decode: it credits nothing, and forgets its call
      or keeps it. */
  function ServerSkipped(s: State, forget: bool): State
    requires s.at < |s.conns| && var c := s.conns[s.at]; c.read < |c.up| && c.up[c.read].RevReply?
  {
    var c := s.conns[s.at];
    s.(conns := s.conns[s.at := c.(read := c.read + 1)], revs := if forget then s.revs - {c.up[c.read].k} else s.revs)
  }

  /** The server reads its next message: asrv::dispatch, or aclnt::dispatch for a reply. */
  function ServerRead(s: State): State
    requires s.at < |s.conns| && s.conns[s.at].read < |s.conns[s.at].up|
  {
    var c := s.conns[s.at];
    var t := s.(conns := s.conns[s.at := c.(read := c.read + 1)]);
    match c.up[c.read]
    case RevReply(k) =>
      if k in s.revs then
        t.(revs := s.revs - {k},
           server := s.server.(acked := if s.server.acked < s.revs[k] then s.revs[k] else s.server.acked))
      else t
    case Call(x) =>
      if x !in s.server.rtab then
        t.(server := s.server.Admitted(x), executed := s.executed + [x])
      else
        var r := s.server.Replayed(x);
        WriteDown(t.(server := r),
                  if s.server.rtab[x].Done? then [Reply(x, s.server.rtab[x].res, r.sent)] else [])
  }

  /** aclnt::call: the call joins the outstanding ones and is sent, unless at EOF. */
  function Issued(s: State, x: Xid): State
    requires s.conns != []
  {
    var c := s.client;
    WriteUp(s.(client := c.(calls := c.calls + [x], ord := c.ord[x := |c.ord|])),
            if c.eof then [] else [Call(x)])
  }

  /** callbase::cancel, also by a timeout: the call is forgotten. */
  function Cancelled(s: State, x: Xid): State {
    s.(client := s.client.(calls := Keep(s.client.calls, {x})))
  }

  function PreResumed(s: State): State {
    s.(client := s.client.(resuming := true, eof := false), conns := s.conns + [FreshConn])
  }

  /** Outstanding calls are sent again, all `n` of them unless the connection breaks. */
  function PostResumed(s: State, n: nat): State
    requires s.conns != [] && n <= |s.client.calls|
  {
    WriteUp(s.(client := s.client.(resuming := false, eof := s.client.eof || n < |s.client.calls|)),
            CallsOf(s.client.calls[..n]))
  }

  function ServerReplied(cfg: Config, s: State, x: Xid, res: Bytes): State
    requires s.at < |s.conns|
  {
    WriteDown(s.(server := s.server.Replied(x, res, cfg.sndbufsz), results := s.results[x := res]),
              if s.server.eof then [] else [Reply(x, res, s.server.sent + |res| + 4)])
  }

  function RevCalled(s: State, k: Xid, len: nat): State
    requires s.at < |s.conns|
  {
    var end := s.server.sent + len + 4;
    WriteDown(s.(server := s.server.(sent := end), revs := s.revs[k := end]), [RevCall(k, end)])
  }

  /** The server sends a call of its own again, after resuming: its reply will not count. */
  function RevResent(s: State, k: Xid, len: nat): State
    requires s.at < |s.conns|
  {
    var end := s.server.sent + len + 4;
    WriteDown(s.(server := s.server.(sent := end)), [RevCall(k, end)])
  }

  function ServerMoved(s: State, n: nat): State {
    s.(server := s.server.Resumed(), revs := map[], at := n)
  }

  function Next(cfg: Config, s: State, a: Step): State
    requires Enabled(cfg, s, a)
  {
    match a
    case Issue(x) => Issued(s, x)
    case Cancel(x) => Cancelled(s, x)
    case ClientEof => s.(client := s.client.(eof := true))
    case PreResume => PreResumed(s)
    case PostResume(n) => PostResumed(s, n)
    case ClientRecv => ClientRead(s)
    case ClientKeep => ClientKept(s)
    case SendRevReply(k) => WriteUp(s, [RevReply(k)])
    case ServerRecv => ServerRead(s)
    case ServerSkip(forget) => ServerSkipped(s, forget)
    case ServerReply(x, res) => ServerReplied(cfg, s, x, res)
    case SendRevCall(k, len) => RevCalled(s, k, len)
    case ResendRevCall(k, len) => RevResent(s, k, len)
    case ServerEof => s.(server := s.server.(eof := true))
    case ServerResume(n) => ServerMoved(s, n)
  }

  /** A run of the protocol: states `b` linked by steps `a`. */
  ghost predicate Run(cfg: Config, b: seq<State>, a: seq<Step>) {
    && |b| == |a| + 1
    && b[0] == Init()
    && forall i :: 0 <= i < |a| ==> Enabled(cfg, b[i], a[i]) && b[i + 1] == Next(cfg, b[i], a[i])
  }

  // ----- What the send-buffer estimate takes for granted

  /** The client has read message `i` of the connection, and the server has read all the
      client wrote before that. */
  ghost predicate Confirmed(c: Conn, i: nat) {
    i < |c.gotAt| && c.gotAt[i] <= c.read
  }

  /** Whatever precedes the last `sndbufsz` bytes written is confirmed, and no call kept. */
  ghost predicate Drained(cfg: Config, s: State, a: Step)
    requires s.at < |s.conns|
  {
    a.ServerReply? && 0 < cfg.sndbufsz ==>
      var c, sent := s.conns[s.at], s.server.Answered(a.x, a.res).sent;
      forall i :: 0 <= i < |c.down| && c.down[i].end < sent - cfg.sndbufsz ==> Confirmed(c, i) && i !in c.kept
  }

  // ----- The invariant

  ghost predicate SentIn(up: seq<Up>, lo: int, hi: int, x: Xid) {
    exists j :: lo <= j < hi && 0 <= j < |up| && up[j] == Call(x)
  }

  ghost predicate Sent(c: Conn, x: Xid) {
    SentIn(c.up, 0, |c.up|, x)
  }

  /** `x` is outstanding or was sent on a connection after `m`. */
  ghost predicate Wanted(calls: seq<Xid>, conns: seq<Conn>, m: int, x: Xid) {
    x in calls || exists n :: m < n < |conns| && 0 <= n && Sent(conns[n], x)
  }

  /** A copy of `x` may still reach the server on connection `at`. */
  ghost predicate Coming(calls: seq<Xid>, conns: seq<Conn>, at: nat, x: Xid)
    requires at < |conns|
  {
    Wanted(calls, conns, at, x) || SentIn(conns[at].up, conns[at].read, |conns[at].up|, x)
  }

  ghost predicate WellFormed(c: Conn) {
    && c.read <= |c.up|
    && |c.gotAt| <= |c.down|
    && (forall i :: 0 <= i < |c.gotAt| ==> c.gotAt[i] <= |c.up|)
    && (forall i, j :: 0 <= i < j < |c.gotAt| ==> c.gotAt[i] <= c.gotAt[j])
  }

  ghost predicate Shape(conns: seq<Conn>, at: nat) {
    && at < |conns|
    && (forall m :: 0 <= m < |conns| ==> WellFormed(conns[m]))
    && (forall m :: at < m < |conns| ==> conns[m].read == 0 && conns[m].down == [])
  }

  /** Offsets grow along the server's stream and end at `sent`. */
  ghost predicate Offsets(d: seq<Down>, sent: nat) {
    && (forall i :: 0 <= i < |d| ==> 0 < d[i].end <= sent)
    && (forall i, j :: 0 <= i < j < |d| ==> d[i].end < d[j].end)
  }

  /** Calls are numbered in issue order. */
  ghost predicate Numbered(ord: map<Xid, nat>, calls: seq<Xid>) {
    && (forall x, y :: x in ord && y in ord && x != y ==> ord[x] != ord[y])
    && (forall x :: x in ord ==> ord[x] < |ord|)
    && (forall i :: 0 <= i < |calls| ==> calls[i] in ord)
    && (forall i, j :: 0 <= i < j < |calls| ==> ord[calls[i]] < ord[calls[j]])
  }

  /** ... and sent in that order on a connection. */
  ghost predicate InOrder(ord: map<Xid, nat>, up: seq<Up>) {
    && (forall j :: 0 <= j < |up| && up[j].Call? ==> up[j].x in ord)
    && (forall i, j :: 0 <= i < j < |up| && up[i].Call? && up[j].Call? ==> ord[up[i].x] < ord[up[j].x])
  }

  ghost predicate Ordered(ord: map<Xid, nat>, conns: seq<Conn>) {
    forall m :: 0 <= m < |conns| ==> InOrder(ord, conns[m].up)
  }

  /** A connection that carried a call carried, before it, every older call that was
      still wanted afterwards. */
  ghost predicate Complete(ord: map<Xid, nat>, calls: seq<Xid>, conns: seq<Conn>)
    requires Ordered(ord, conns)
  {
    forall m, j, x {:trigger SentIn(conns[m].up, 0, j, x)} ::
      0 <= m < |conns| && 0 <= j < |conns[m].up| && conns[m].up[j].Call?
      && x in ord && ord[x] < ord[conns[m].up[j].x] && Wanted(calls, conns, m, x)
      ==> SentIn(conns[m].up, 0, j, x)
  }

  /** Until post_resume a connection carries no call; afterwards, all outstanding ones. */
  ghost predicate Current(client: Client, up: seq<Up>) {
    && (client.resuming ==> forall j :: 0 <= j < |up| ==> !up[j].Call?)
    && (!client.resuming && !client.eof ==>
          forall x :: x in client.calls ==> SentIn(up, 0, |up|, x))
  }

  /** The dispatched calls are those the server has read, each logged once. */
  ghost predicate Logged(conns: seq<Conn>, at: nat, executed: seq<Xid>) {
    && Distinct(executed)
    && (forall x :: x in executed ==>
          exists m :: 0 <= m <= at && m < |conns| && SentIn(conns[m].up, 0, conns[m].read, x))
    && (forall m, x :: 0 <= m <= at && m < |conns| && SentIn(conns[m].up, 0, conns[m].read, x) ==> x in executed)
  }

  /** A dispatched call that may arrive again is still in the table, which holds no other. */
  ghost predicate Remembered(s: State)
    requires s.at < |s.conns|
  {
    && (forall x :: x in s.server.rtab ==> x in s.executed)
    && (forall x :: x in s.executed && Coming(s.client.calls, s.conns, s.at, x) ==> x in s.server.rtab)
  }

  ghost predicate ReplyBy(d: seq<Down>, x: Xid, end: nat) {
    exists i :: 0 <= i < |d| && d[i].Reply? && d[i].x == x && d[i].end <= end
  }

  /** A leftover was not read on this connection; any other cached reply was sent on it. */
  ghost predicate Resent(c: Conn, server: Server) {
    forall x :: server.Cached(x) ==>
      if server.rtab[x].offset == 0 then server.eof || !SentIn(c.up, 0, c.read, x)
      else || (server.eof && server.rtab[x].offset == server.sent)
           || ReplyBy(c.down, x, server.rtab[x].offset)
  }

  ghost predicate ReadBy(c: Conn, k: Xid, j: nat) {
    exists i :: 0 <= i < |c.gotAt| && i < |c.down| && c.down[i].RevCall? && c.down[i].k == k && c.gotAt[i] <= j
                && Clear(c, i)
  }

  /** The client answers only what it has read, and read before it kept a call. */
  ghost predicate Answers(c: Conn) {
    forall j :: 0 <= j < |c.up| && c.up[j].RevReply? ==> ReadBy(c, c.up[j].k, j)
  }

  ghost predicate CallAt(d: seq<Down>, k: Xid, end: nat) {
    exists i :: 0 <= i < |d| && d[i] == RevCall(k, end)
  }

  ghost predicate AckedAt(c: Conn, acked: nat) {
    exists i :: 0 <= i < |c.down| && c.down[i].end == acked && Confirmed(c, i) && Clear(c, i)
  }

  /** The server credits an offset only once the client has answered a call that ends there. */
  ghost predicate Acks(c: Conn, revs: map<Xid, nat>, acked: nat) {
    && (forall k :: k in revs ==> CallAt(c.down, k, revs[k]))
    && (forall i, j :: 0 <= i < j < |c.down| && c.down[i].RevCall? && c.down[j].RevCall? ==> c.down[i].k != c.down[j].k)
    && (0 < acked ==> AckedAt(c, acked))
  }

  /** A reply was read and its call not kept. */
  ghost predicate Taken(c: Conn, i: nat) {
    i < |c.gotAt| && i < |c.down| && c.down[i].Reply? && i !in c.kept
  }

  /** Once the client has taken a reply, it never sends that call again. */
  ghost predicate Settled(calls: seq<Xid>, conns: seq<Conn>) {
    forall m, i: nat {:trigger Taken(conns[m], i)} :: 0 <= m < |conns| && Taken(conns[m], i) ==>
      && !Wanted(calls, conns, m, conns[m].down[i].x)
      && !SentIn(conns[m].up, conns[m].gotAt[i], |conns[m].up|, conns[m].down[i].x)
  }

  ghost predicate Known(ord: map<Xid, nat>, d: seq<Down>) {
    forall i :: 0 <= i < |d| && d[i].Reply? ==> d[i].x in ord
  }

  ghost predicate Genuine(d: seq<Down>, results: map<Xid, Bytes>) {
    forall i :: 0 <= i < |d| && d[i].Reply? ==> d[i].x in results && results[d[i].x] == d[i].res
  }

  /** Every reply anywhere is what the service answered. */
  ghost predicate Agreed(s: State) {
    && (forall x :: x in s.results ==> x in s.executed)
    && (forall x :: x in s.server.rtab ==>
          if s.server.rtab[x].Pending? then x !in s.results
          else x in s.results && s.results[x] == s.server.rtab[x].res)
    && (forall m :: 0 <= m < |s.conns| ==> Genuine(s.conns[m].down, s.results))
    && (forall x :: x in s.client.accepted ==> x in s.results && s.results[x] == s.client.accepted[x])
  }

  /** What concerns the client and the streams ... */
  ghost predicate StreamInv(ord: map<Xid, nat>, calls: seq<Xid>, conns: seq<Conn>, at: nat) {
    && Shape(conns, at)
    && Numbered(ord, calls)
    && Ordered(ord, conns)
    && Complete(ord, calls, conns)
    && (forall m :: 0 <= m < |conns| ==> Answers(conns[m]))
    && Settled(calls, conns)
    && (forall m :: 0 <= m < |conns| ==> Known(ord, conns[m].down))
  }

  /** ... and what concerns the server on its connection. */
  ghost predicate ServerInv(c: Conn, server: Server, revs: map<Xid, nat>) {
    && server.Valid()
    && Offsets(c.down, server.sent)
    && server.acked <= server.sent
    && Resent(c, server)
    && Acks(c, revs, server.acked)
  }

  ghost predicate Inv(s: State) {
    && StreamInv(s.client.ord, s.client.calls, s.conns, s.at)
    && Current(s.client, s.conns[|s.conns| - 1].up)
    && ServerInv(s.conns[s.at], s.server, s.revs)
    && Logged(s.conns, s.at, s.executed)
    && Remembered(s)
    && Agreed(s)
  }
}
