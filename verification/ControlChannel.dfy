/**
  The agent's control channel: many RDP byte streams share one connection. A frame is the
  16 bytes a session id spells in hex, then the payload; text messages start and end
  sessions; each tunnel's pump copies what the local socket says back onto the channel.
 */
module ControlChannel {
  import opened Common

  // ---- Session ids as hex ----

  function Digit(n: nat): char
    requires n < 16
  {
    if n < 10 then '0' + (n as char) else 'a' + ((n - 10) as char)
  }

  predicate LowerHex(c: char) {
    '0' <= c <= '9' || 'a' <= c <= 'f'
  }

  /** A session id as the server makes it: 32 lower-case hex digits. */
  predicate Canonical(id: string) {
    |id| == 32 && AllLower(id)
  }

  function DigitValue(c: char): Option<nat> {
    if '0' <= c <= '9' then Some((c as int) - ('0' as int))
    else if 'a' <= c <= 'f' then Some((c as int) - ('a' as int) + 10)
    else if 'A' <= c <= 'F' then Some((c as int) - ('A' as int) + 10)
    else None
  }

  /** `Convert.ToHexString(..).ToLowerInvariant()`. */
  function ToHex(bs: seq<byte>): (s: string)
    ensures |s| == 2 * |bs|
    ensures AllLower(s)
  {
    if bs == [] then "" else [Digit(bs[0] / 16), Digit(bs[0] % 16)] + ToHex(bs[1..])
  }

  /** `Convert.FromHexString`; None where it throws. Takes either case. */
  function FromHex(s: string): (r: Option<seq<byte>>)
    ensures r.Some? ==> 2 * |r.value| == |s|
  {
    if s == "" then Some([])
    else if |s| == 1 then None
    else
      match (DigitValue(s[0]), DigitValue(s[1]), FromHex(s[2..]))
      case (Some(h), Some(l), Some(rest)) => Some([16 * h + l] + rest)
      case _ => None
  }

  lemma DigitOf(c: char)
    ensures LowerHex(c) ==> DigitValue(c).Some? && DigitValue(c).value < 16 && Digit(DigitValue(c).value) == c
    ensures DigitValue(c).Some? ==> DigitValue(c).value < 16
  {
  }

  lemma ValueOf(n: nat)
    requires n < 16
    ensures DigitValue(Digit(n)) == Some(n)
  {
  }

  lemma FromHexCons(h: char, l: char, rest: string)
    requires DigitValue(h).Some? && DigitValue(l).Some? && FromHex(rest).Some?
    ensures DigitValue(h).value < 16 && DigitValue(l).value < 16
    ensures FromHex([h, l] + rest) == Some([16 * DigitValue(h).value + DigitValue(l).value] + FromHex(rest).value)
  {
    assert ([h, l] + rest)[2..] == rest;
  }

  lemma ToHexCons(b: byte, rest: seq<byte>)
    ensures ToHex([b] + rest) == [Digit(b / 16), Digit(b % 16)] + ToHex(rest)
  {
    assert ([b] + rest)[1..] == rest;
  }

  lemma HexOfBytesCons(b: byte, rest: seq<byte>)
    requires FromHex(ToHex(rest)) == Some(rest)
    ensures FromHex(ToHex([b] + rest)) == Some([b] + rest)
  {
    hide FromHex, ToHex, Digit, DigitValue;
    ToHexCons(b, rest);
    ValueOf(b / 16);
    ValueOf(b % 16);
    FromHexCons(Digit(b / 16), Digit(b % 16), ToHex(rest));
  }

  lemma {:induction false} HexOfBytes(bs: seq<byte>)
    ensures FromHex(ToHex(bs)) == Some(bs)
  {
    if bs == [] {
      assert ToHex(bs) == "";
    } else {
      hide FromHex, ToHex;
      HexOfBytes(bs[1..]);
      HexOfBytesCons(bs[0], bs[1..]);
      assert bs == [bs[0]] + bs[1..];
    }
  }

  predicate AllLower(s: string) {
    forall k | 0 <= k < |s| :: LowerHex(s[k])
  }

  lemma LowerParts(s: string)
    requires AllLower(s) && |s| >= 2
    ensures LowerHex(s[0]) && LowerHex(s[1]) && AllLower(s[2..]) && s == [s[0], s[1]] + s[2..]
  {
  }

  lemma {:induction false} BytesOfHex(s: string)
    requires |s| % 2 == 0 && AllLower(s)
    ensures FromHex(s).Some? && ToHex(FromHex(s).value) == s
  {
    if s == "" {
    } else {
      hide FromHex, ToHex, DigitValue, LowerHex, AllLower;
      LowerParts(s);
      var h, l, rest := s[0], s[1], s[2..];
      BytesOfHex(rest);
      BytesOfHexCons(h, l, rest);
    }
  }

  lemma BytesOfHexCons(h: char, l: char, rest: string)
    requires LowerHex(h) && LowerHex(l) && FromHex(rest).Some? && ToHex(FromHex(rest).value) == rest
    ensures FromHex([h, l] + rest).Some? && ToHex(FromHex([h, l] + rest).value) == [h, l] + rest
  {
    hide FromHex, ToHex, LowerHex, Digit, DigitValue;
    DigitOf(h);
    DigitOf(l);
    FromHexCons(h, l, rest);
    ToHexCons(16 * DigitValue(h).value + DigitValue(l).value, FromHex(rest).value);
  }

  // ---- Frames ----

  /** The frame for id bytes and a chunk: a zero-filled 16-byte field, then overwritten. None where copying throws. */
  function Frame(idBytes: seq<byte>, chunk: seq<byte>): (f: Option<seq<byte>>)
    ensures f.Some? ==> |f.value| == 16 + |chunk| && f.value[16..] == chunk
    ensures f.Some? && |idBytes| == 16 ==> f.value == idBytes + chunk
  {
    if |idBytes| > 16 + |chunk| then None
    else
      var head := if |idBytes| >= 16 then idBytes[..16] else idBytes + seq(16 - |idBytes|, _ => 0);
      Some(head + chunk)
  }

  function Framed(id: string, chunk: seq<byte>): Option<seq<byte>> {
    match FromHex(id)
    case None => None
    case Some(bytes) => Frame(bytes, chunk)
  }

  /** The id a received payload is for. */
  function Addressee(payload: seq<byte>): Option<string> {
    if |payload| < 16 then None else Some(ToHex(payload[..16]))
  }

  predicate For(payload: seq<byte>, id: string) {
    Addressee(payload) == Some(id)
  }

  /** A frame is read back as it was sent exactly when the id is 32 lower-case hex digits. */
  lemma FramingRoundTrip(id: string, chunk: seq<byte>)
    ensures (&& Framed(id, chunk).Some?
             && For(Framed(id, chunk).value, id) && Framed(id, chunk).value[16..] == chunk)
       <==> Canonical(id)
  {
    if Canonical(id) {
      BytesOfHex(id);
      var bytes := FromHex(id).value;
      assert (bytes + chunk)[..16] == bytes;
    }
  }

  // ---- The client, its tunnels and what happens to them ----

  datatype Tunnel = Tunnel(id: string, connected: bool, disposed: bool, pumping: bool, written: seq<byte>)

  datatype Shadow = Shadow(id: string, stopped: bool)

  datatype Outgoing = Data(frame: seq<byte>) | SessionEnd(id: string)

  /** Closing: the socket is no longer open, or already set to null, but nothing has been torn down yet. */
  datatype Link = Down | Up | Closing

  /** Every tunnel and shadow session ever made, the two tables of those registered, and what got out. */
  datatype Client = Client(
    link: Link,
    tunnels: seq<Tunnel>, connects: map<string, nat>,
    shadows: seq<Shadow>, shadowTable: map<string, nat>,
    sent: seq<Outgoing>)

  datatype Mode = ShadowMode | ConnectMode | OtherMode

  /**
    `ok` says whether the local RDP listener answers, or a write to the local socket succeeds;
    `carried` whether the channel takes a message that is sent over it rather than throwing.
   */
  datatype Event =
    | Connected                                                   // the channel opens
    | SocketLost                                                  // its socket closes
    | Torn                                                        // what depended on it is torn down
    | Start(id: string, mode: Mode, ok: bool, carried: bool)      // session_start
    | End(id: string)                                             // session_end
    | Binary(payload: seq<byte>, ok: bool)                        // a binary frame
    | Read(id: string, k: nat, chunk: seq<byte>, carried: bool)   // the pump of tunnel k, of session id, reads a chunk
    | PumpEnds(id: string, k: nat, carried: bool)                 // and comes to its end

  predicate Opens(e: Event) {
    e.Start? && e.mode == ConnectMode
  }

  predicate Live(t: Tunnel) {
    t.connected && !t.disposed
  }

  predicate Possible(c: Client, e: Event) {
    match e
    case Connected => c.link == Down
    case SocketLost => c.link == Up
    case Torn => c.link == Closing
    case Start(_, _, _, _) => c.link != Down
    case End(_) => c.link != Down
    case Binary(_, _) => c.link != Down
    case Read(id, k, chunk, _) =>
      && k < |c.tunnels| && c.tunnels[k].id == id
      && c.tunnels[k].pumping && !c.tunnels[k].disposed && 0 < |chunk| <= 65536
    case PumpEnds(id, k, _) => k < |c.tunnels| && c.tunnels[k].id == id && c.tunnels[k].pumping
  }

  /** A message is dropped in silence unless the socket is open and takes it. */
  function Sent(c: Client, m: Outgoing, carried: bool): Client {
    if c.link == Up && carried then c.(sent := c.sent + [m]) else c
  }

  predicate Registered(c: Client, k: nat)
    requires k < |c.tunnels|
  {
    c.tunnels[k].id in c.connects && c.connects[c.tunnels[k].id] == k
  }

  predicate ShadowRegistered(c: Client, k: nat)
    requires k < |c.shadows|
  {
    c.shadows[k].id in c.shadowTable && c.shadowTable[c.shadows[k].id] == k
  }

  function DisposedAt(ts: seq<Tunnel>, k: nat): seq<Tunnel> {
    if k < |ts| then ts[k := ts[k].(disposed := true)] else ts
  }

  function StoppedAt(ss: seq<Shadow>, k: nat): seq<Shadow> {
    if k < |ss| then ss[k := ss[k].(stopped := true)] else ss
  }

  function Ended(c: Client, id: string): Client {
    c.(tunnels := if id in c.connects then DisposedAt(c.tunnels, c.connects[id]) else c.tunnels,
       connects := c.connects - {id},
       shadows := if id in c.shadowTable then StoppedAt(c.shadows, c.shadowTable[id]) else c.shadows,
       shadowTable := c.shadowTable - {id})
  }

  /** The tunnels when all those registered but the ones under the ids left have been disposed of. */
  function DisposedBut(c: Client, left: set<string>): seq<Tunnel> {
    seq(|c.tunnels|, k requires 0 <= k < |c.tunnels| =>
      if Registered(c, k) && c.tunnels[k].id !in left then c.tunnels[k].(disposed := true) else c.tunnels[k])
  }

  function StoppedBut(c: Client, left: set<string>): seq<Shadow> {
    seq(|c.shadows|, k requires 0 <= k < |c.shadows| =>
      if ShadowRegistered(c, k) && c.shadows[k].id !in left then c.shadows[k].(stopped := true) else c.shadows[k])
  }

  function TornDown(c: Client): Client {
    c.(link := Down,
       tunnels := DisposedBut(c, {}), connects := map[],
       shadows := StoppedBut(c, {}), shadowTable := map[])
  }

  lemma DisposedNone(c: Client)
    ensures DisposedBut(c, c.connects.Keys) == c.tunnels
  {
  }

  lemma StoppedNone(c: Client)
    ensures StoppedBut(c, c.shadowTable.Keys) == c.shadows
  {
  }

  lemma DisposeOneMore(c: Client, left: set<string>, id: string)
    requires id in left && id in c.connects
    requires c.connects[id] < |c.tunnels| && c.tunnels[c.connects[id]].id == id
    ensures DisposedBut(c, left - {id}) == DisposedAt(DisposedBut(c, left), c.connects[id])
  {
  }

  lemma StopOneMore(c: Client, left: set<string>, id: string)
    requires id in left && id in c.shadowTable
    requires c.shadowTable[id] < |c.shadows| && c.shadows[c.shadowTable[id]].id == id
    ensures StoppedBut(c, left - {id}) == StoppedAt(StoppedBut(c, left), c.shadowTable[id])
  {
  }

  function Started(c: Client, id: string, mode: Mode, ok: bool, carried: bool): Client {
    match mode
    case ShadowMode =>
      c.(shadows := c.shadows + [Shadow(id, false)], shadowTable := c.shadowTable[id := |c.shadows|])
    case ConnectMode =>
      var added := c.(tunnels := c.tunnels + [Tunnel(id, ok, false, ok, [])],
                      connects := c.connects[id := |c.tunnels|]);
      if ok then added else Sent(added, SessionEnd(id), carried)
    case OtherMode => c
  }

  function Delivered(c: Client, id: string, chunk: seq<byte>, ok: bool): Client {
    if id in c.connects && c.connects[id] < |c.tunnels| && Live(c.tunnels[c.connects[id]]) && ok then
      var t := c.tunnels[c.connects[id]];
      c.(tunnels := c.tunnels[c.connects[id] := t.(written := t.written + chunk)])
    else c
  }

  function Received(c: Client, payload: seq<byte>, ok: bool): Client {
    if |payload| < 16 then c else Delivered(c, ToHex(payload[..16]), payload[16..], ok)
  }

  function PumpOver(c: Client, k: nat, carried: bool): Client
    requires k < |c.tunnels|
  {
    var t := c.tunnels[k];
    Sent(c, SessionEnd(t.id), carried).(
      connects := c.connects - {t.id},
      tunnels := c.tunnels[k := t.(pumping := false, disposed := true)])
  }

  function Step(c: Client, e: Event): Client {
    if !Possible(c, e) then c
    else
      match e
      case Connected => c.(link := Up)
      case SocketLost => c.(link := Closing)
      case Torn => TornDown(c)
      case Start(id, mode, ok, carried) => Started(c, id, mode, ok, carried)
      case End(id) => Ended(c, id)
      case Binary(payload, ok) => Received(c, payload, ok)
      case Read(id, k, chunk, carried) =>
        (match Framed(id, chunk)
         case Some(f) => Sent(c, Data(f), carried)
         case None => PumpOver(c, k, carried))
      case PumpEnds(id, k, carried) => PumpOver(c, k, carried)
  }

  const NEW := Client(Down, [], map[], [], map[], [])

  /** What becomes of c by the first n events. */
  function After(c: Client, events: seq<Event>, n: nat): Client
    requires n <= |events|
  {
    if n == 0 then c else Step(After(c, events, n - 1), events[n - 1])
  }

  /** Each of the first n events is possible when it happens. */
  ghost predicate FeasibleFrom(c: Client, events: seq<Event>, n: nat)
    requires n <= |events|
  {
    n == 0 || (FeasibleFrom(c, events, n - 1) && Possible(After(c, events, n - 1), events[n - 1]))
  }

  function Run(events: seq<Event>, n: nat): Client
    requires n <= |events|
  {
    After(NEW, events, n)
  }

  ghost predicate Feasible(events: seq<Event>, n: nat)
    requires n <= |events|
  {
    FeasibleFrom(NEW, events, n)
  }

  lemma Happens(events: seq<Event>, n: nat)
    requires n < |events| && Feasible(events, n + 1)
    ensures Feasible(events, n) && Possible(Run(events, n), events[n])
    ensures Run(events, n + 1) == Step(Run(events, n), events[n])
  {
  }

  // ---- When an id may be started again ----

  /** No tunnel of session id has a pump that is yet to come to its end. */
  predicate NonePumping(c: Client, id: string) {
    forall k | 0 <= k < |c.tunnels| && c.tunnels[k].id == id :: !c.tunnels[k].pumping
  }

  /** Each of the first n events that opens a tunnel does so when none of its id is still pumping. */
  ghost predicate TunnelsSettled(events: seq<Event>, n: nat)
    requires n <= |events|
  {
    n == 0 ||
    (TunnelsSettled(events, n - 1) && (Opens(events[n - 1]) ==> NonePumping(Run(events, n - 1), events[n - 1].id)))
  }

  /** Each of the first n events that starts a shadow session does so when none of its id is registered. */
  ghost predicate ShadowsSettled(events: seq<Event>, n: nat)
    requires n <= |events|
  {
    n == 0 ||
    (ShadowsSettled(events, n - 1) &&
     (events[n - 1].Start? && events[n - 1].mode == ShadowMode ==> events[n - 1].id !in Run(events, n - 1).shadowTable))
  }

  // ---- One session on its own ----

  /** The life of one tunnel. */
  datatype Life = Unborn | Open(id: string) | Over(id: string)

  /** How many tunnels the first n events make. */
  function Made(events: seq<Event>, n: nat): nat
    requires n <= |events|
  {
    if n == 0 then 0 else Made(events, n - 1) + if Opens(events[n - 1]) then 1 else 0
  }

  /** Events that close session s. */
  predicate Closes(e: Event, s: string) {
    match e
    case Torn => true
    case End(id) => id == s
    case PumpEnds(id, _, _) => id == s
    case Read(id, _, chunk, _) => id == s && Framed(id, chunk) == None
    case _ => false
  }

  /** The bytes an event brings for s, if it is open. */
  function Arriving(e: Event, s: string): seq<byte> {
    if e.Binary? && e.ok && For(e.payload, s) then e.payload[16..] else []
  }

  /** The k-th tunnel opened lives from its start to the first event that closes its session. */
  function LifeOf(events: seq<Event>, n: nat, k: nat): Life
    requires n <= |events|
  {
    if n == 0 then Unborn
    else
      var e := events[n - 1];
      match LifeOf(events, n - 1, k)
      case Unborn =>
        if Opens(e) && Made(events, n - 1) == k then (if e.ok then Open(e.id) else Over(e.id)) else Unborn
      case Open(id) => if Closes(e, id) then Over(id) else Open(id)
      case Over(id) => Over(id)
  }

  /** The payloads of the frames for it that arrive, and can be written, during its life. */
  function Payloads(events: seq<Event>, n: nat, k: nat): seq<byte>
    requires n <= |events|
  {
    if n == 0 then []
    else
      Payloads(events, n - 1, k) +
      match LifeOf(events, n - 1, k)
      case Open(id) => Arriving(events[n - 1], id)
      case _ => []
  }

  lemma {:induction false} UnbornHasNothing(events: seq<Event>, n: nat, k: nat)
    requires n <= |events| && k >= Made(events, n)
    ensures LifeOf(events, n, k) == Unborn && Payloads(events, n, k) == []
  {
    if n == 0 {
    } else {
      UnbornHasNothing(events, n - 1, k);
    }
  }

  // ---- What every run keeps ----

  ghost predicate Tables(c: Client) {
    && (forall i, j | 0 <= i < j < |c.tunnels| && c.tunnels[i].pumping && c.tunnels[j].pumping ::
          c.tunnels[i].id != c.tunnels[j].id)
    && (forall id | id in c.connects ::
          c.connects[id] < |c.tunnels| && c.tunnels[c.connects[id]].id == id && !c.tunnels[c.connects[id]].disposed)
    && (forall k | 0 <= k < |c.tunnels| && Live(c.tunnels[k]) :: c.tunnels[k].pumping && Registered(c, k))
    && (forall k | 0 <= k < |c.tunnels| && c.tunnels[k].pumping :: c.tunnels[k].connected)
    && (c.link == Down ==> c.connects == map[])
  }

  ghost predicate ShadowTables(c: Client) {
    && (forall id | id in c.shadowTable ::
          && c.shadowTable[id] < |c.shadows|
          && c.shadows[c.shadowTable[id]].id == id && !c.shadows[c.shadowTable[id]].stopped)
    && (forall k | 0 <= k < |c.shadows| && !c.shadows[k].stopped :: ShadowRegistered(c, k))
    && (c.link == Down ==> c.shadowTable == map[])
  }

  predicate AloneAt(events: seq<Event>, n: nat, k: nat, t: Tunnel)
    requires n <= |events|
  {
    && LifeOf(events, n, k) == (if Live(t) then Open(t.id) else Over(t.id))
    && t.written == Payloads(events, n, k)
  }

  /** Each tunnel is where its own session's life says, and has been given that session's payloads. */
  ghost predicate Alone(events: seq<Event>, n: nat, c: Client)
    requires n <= |events|
  {
    && |c.tunnels| == Made(events, n)
    && forall k | 0 <= k < |c.tunnels| :: AloneAt(events, n, k, c.tunnels[k])
  }

  lemma EndKeepsTables(c: Client, id: string)
    requires Tables(c)
    ensures Tables(Ended(c, id))
  {
    var d := Ended(c, id);
    assert forall k | 0 <= k < |c.tunnels| ::
        d.tunnels[k].id == c.tunnels[k].id && d.tunnels[k].pumping == c.tunnels[k].pumping;
  }

  lemma TearDownKeepsTables(c: Client)
    requires Tables(c)
    ensures Tables(TornDown(c))
  {
  }

  lemma AddKeepsTables(c: Client, d: Client, t: Tunnel)
    requires Tables(c) && c.link != Down && NonePumping(c, t.id)
    requires t.connected == t.pumping && !t.disposed && d.link == c.link
    requires d.tunnels == c.tunnels + [t] && d.connects == c.connects[t.id := |c.tunnels|]
    ensures Tables(d)
  {
  }

  lemma StartKeepsTables(c: Client, id: string, mode: Mode, ok: bool, carried: bool)
    requires Tables(c) && c.link != Down && (mode == ConnectMode ==> NonePumping(c, id))
    ensures Tables(Started(c, id, mode, ok, carried))
  {
    if mode == ConnectMode {
      hide Tables, NonePumping;
      AddKeepsTables(c, Started(c, id, mode, ok, carried), Tunnel(id, ok, false, ok, []));
    }
  }

  lemma BinaryKeepsTables(c: Client, payload: seq<byte>, ok: bool)
    requires Tables(c)
    ensures Tables(Received(c, payload, ok))
  {
    hide ToHex;
  }

  lemma PumpEndKeepsTables(c: Client, k: nat, carried: bool)
    requires Tables(c) && k < |c.tunnels| && c.tunnels[k].pumping
    ensures Tables(PumpOver(c, k, carried))
  {
  }

  lemma StepKeepsTables(c: Client, e: Event)
    requires Tables(c) && (Opens(e) ==> NonePumping(c, e.id))
    ensures Tables(Step(c, e))
  {
    hide Framed, ToHex, Started, Ended, TornDown, Received, PumpOver;
    if Possible(c, e) {
      match e
      case Torn => TearDownKeepsTables(c);
      case Start(id, mode, ok, carried) => StartKeepsTables(c, id, mode, ok, carried);
      case End(id) => EndKeepsTables(c, id);
      case Binary(payload, ok) => BinaryKeepsTables(c, payload, ok);
      case Read(_, k, _, carried) => PumpEndKeepsTables(c, k, carried);
      case PumpEnds(_, k, carried) => PumpEndKeepsTables(c, k, carried);
      case _ =>
    }
  }

  /** What an event makes of one tunnel, whatever else it does. */
  predicate Follows(t: Tunnel, u: Tunnel, e: Event) {
    && u.id == t.id
    && (Live(u) <==> Live(t) && !Closes(e, t.id))
    && u.written == t.written + if Live(t) then Arriving(e, t.id) else []
  }

  lemma EndFollows(c: Client, id: string, k: nat)
    requires Tables(c) && k < |c.tunnels|
    ensures Follows(c.tunnels[k], Ended(c, id).tunnels[k], End(id))
  {
  }

  lemma TearDownFollows(c: Client, k: nat)
    requires Tables(c) && k < |c.tunnels|
    ensures Follows(c.tunnels[k], TornDown(c).tunnels[k], Torn)
  {
  }

  lemma BinaryFollows(c: Client, payload: seq<byte>, ok: bool, k: nat)
    requires Tables(c) && k < |c.tunnels|
    ensures Follows(c.tunnels[k], Received(c, payload, ok).tunnels[k], Binary(payload, ok))
  {
    hide ToHex;
  }

  /** An event at which the pump of tunnel k comes to its end. */
  predicate EndsPump(c: Client, e: Event, k: nat) {
    && k < |c.tunnels| && c.tunnels[k].pumping
    && match e
       case PumpEnds(id, j, _) => id == c.tunnels[k].id && j == k
       case Read(id, j, chunk, _) => id == c.tunnels[k].id && j == k && Framed(id, chunk) == None
       case _ => false
  }

  lemma PumpEndFollows(c: Client, j: nat, k: nat, e: Event, carried: bool)
    requires Tables(c) && EndsPump(c, e, j) && k < |c.tunnels|
    ensures Follows(c.tunnels[k], PumpOver(c, j, carried).tunnels[k], e)
  {
    hide Framed;
  }

  lemma StepFollows(c: Client, e: Event, k: nat)
    requires Tables(c) && Possible(c, e) && k < |c.tunnels|
    ensures k < |Step(c, e).tunnels| && Follows(c.tunnels[k], Step(c, e).tunnels[k], e)
  {
    match e
    case Torn => TearDownFollows(c, k);
    case End(id) => EndFollows(c, id, k);
    case Binary(payload, ok) => BinaryFollows(c, payload, ok, k);
    case Read(id, j, chunk, carried) =>
      if Framed(id, chunk) == None {
        PumpEndFollows(c, j, k, e, carried);
      }
    case PumpEnds(_, j, carried) => PumpEndFollows(c, j, k, e, carried);
    case _ =>
  }

  lemma FollowingAgrees(events: seq<Event>, n: nat, k: nat, t: Tunnel, u: Tunnel)
    requires n < |events| && Follows(t, u, events[n]) && AloneAt(events, n, k, t)
    ensures AloneAt(events, n + 1, k, u)
  {
    hide Closes, Arriving;
  }

  lemma StepLength(c: Client, e: Event)
    requires Possible(c, e)
    ensures if Opens(e) then Step(c, e).tunnels == c.tunnels + [Tunnel(e.id, e.ok, false, e.ok, [])]
            else |Step(c, e).tunnels| == |c.tunnels|
  {
    hide ToHex, Framed;
  }

  lemma BornAlone(events: seq<Event>, n: nat)
    requires n < |events| && Opens(events[n])
    ensures AloneAt(events, n + 1, Made(events, n), Tunnel(events[n].id, events[n].ok, false, events[n].ok, []))
  {
    UnbornHasNothing(events, n, Made(events, n));
  }

  lemma StepKeepsAlone(events: seq<Event>, n: nat)
    requires n < |events| && Possible(Run(events, n), events[n])
    requires Tables(Run(events, n)) && Alone(events, n, Run(events, n))
    ensures Alone(events, n + 1, Step(Run(events, n), events[n]))
  {
    hide Tables, Step, Possible, Follows, Run, AloneAt;
    var c, e := Run(events, n), events[n];
    var d := Step(c, e);
    StepLength(c, e);
    if Opens(e) {
      BornAlone(events, n);
    }
    forall k | 0 <= k < |d.tunnels|
      ensures AloneAt(events, n + 1, k, d.tunnels[k])
    {
      if k < |c.tunnels| {
        StepFollows(c, e, k);
        FollowingAgrees(events, n, k, c.tunnels[k], d.tunnels[k]);
      }
    }
  }

  lemma Initially(events: seq<Event>)
    ensures Run(events, 0) == NEW && Tables(NEW) && ShadowTables(NEW) && Alone(events, 0, NEW)
  {
  }

  lemma Settling(events: seq<Event>, n: nat)
    requires n < |events|
    ensures TunnelsSettled(events, n + 1) ==>
              TunnelsSettled(events, n) && (Opens(events[n]) ==> NonePumping(Run(events, n), events[n].id))
    ensures ShadowsSettled(events, n + 1) ==> ShadowsSettled(events, n)
  {
  }

  /**
    Sessions do not mix. In every run in which no tunnel is opened while one of its id is still
    pumping, each tunnel ever made has been written exactly its own session's payloads, and its
    socket is open exactly while that session, taken on its own, is.
   */
  lemma {:induction false} SessionsDoNotMix(events: seq<Event>, n: nat)
    requires n <= |events| && Feasible(events, n) && TunnelsSettled(events, n)
    ensures Tables(Run(events, n)) && Alone(events, n, Run(events, n))
  {
    hide Feasible, Step, Possible, TunnelsSettled, Tables, Alone, Run, NonePumping;
    if n == 0 {
      Initially(events);
    } else {
      Happens(events, n - 1);
      Settling(events, n - 1);
      SessionsDoNotMix(events, n - 1);
      StepKeepsTables(Run(events, n - 1), events[n - 1]);
      StepKeepsAlone(events, n - 1);
    }
  }

  // ---- That condition is the exact one ----

  /** Whatever happens from c on short of another start of id, tunnel k is registered as long as it is live. */
  ghost predicate StaysRegistered(c: Client, k: nat, id: string) {
    forall events: seq<Event>, n: nat | n <= |events| && FeasibleFrom(c, events, n) && NotReopened(events, n, id) ::
      k < |After(c, events, n).tunnels| && (Live(After(c, events, n).tunnels[k]) ==> Registered(After(c, events, n), k))
  }

  ghost predicate NotReopened(events: seq<Event>, n: nat, id: string)
    requires n <= |events|
  {
    forall i | 0 <= i < n && Opens(events[i]) :: events[i].id != id
  }

  /** Tunnel k of session id is registered while live, and no other of that id is pumping. */
  ghost predicate Holds(c: Client, k: nat, id: string) {
    && k < |c.tunnels| && c.tunnels[k].id == id
    && (Live(c.tunnels[k]) ==> Registered(c, k))
    && forall j | 0 <= j < |c.tunnels| && j != k && c.tunnels[j].id == id :: !c.tunnels[j].pumping
  }

  lemma StepHolds(c: Client, e: Event, k: nat, id: string)
    requires Holds(c, k, id) && Possible(c, e) && (Opens(e) ==> e.id != id)
    ensures Holds(Step(c, e), k, id)
  {
    hide ToHex, Framed;
  }

  lemma {:induction false} HoldsOn(c: Client, events: seq<Event>, n: nat, k: nat, id: string)
    requires n <= |events| && FeasibleFrom(c, events, n) && NotReopened(events, n, id) && Holds(c, k, id)
    ensures Holds(After(c, events, n), k, id)
  {
    hide Holds, Step, Possible;
    if n == 0 {
    } else {
      HoldsOn(c, events, n - 1, k, id);
      StepHolds(After(c, events, n - 1), events[n - 1], k, id);
    }
  }

  /** The end of an older tunnel's pump takes the newer one of its id off the table. */
  lemma OldPumpUnregisters(c: Client, id: string, k: nat)
    requires k + 1 < |c.tunnels| && c.tunnels[k].id == id && c.tunnels[k].pumping
    requires c.tunnels[|c.tunnels| - 1].id == id && Live(c.tunnels[|c.tunnels| - 1])
    ensures !StaysRegistered(c, |c.tunnels| - 1, id)
  {
    var events := [PumpEnds(id, k, true)];
    assert After(c, events, 0) == c && FeasibleFrom(c, events, 0);
    assert FeasibleFrom(c, events, 1) && After(c, events, 1) == PumpOver(c, k, true);
    assert NotReopened(events, 1, id);
    assert Live(After(c, events, 1).tunnels[|c.tunnels| - 1]) && !Registered(After(c, events, 1), |c.tunnels| - 1);
  }

  /**
    Starting an id again is safe exactly when no earlier tunnel of that id is still pumping:
    then, and only then, the new tunnel is registered as long as it is live, whatever follows.
   */
  lemma ReuseIsSafeExactly(c: Client, id: string, carried: bool)
    requires c.link != Down
    ensures StaysRegistered(Started(c, id, ConnectMode, true, carried), |c.tunnels|, id) <==> NonePumping(c, id)
  {
    var d := Started(c, id, ConnectMode, true, carried);
    if NonePumping(c, id) {
      assert Holds(d, |c.tunnels|, id);
      forall events: seq<Event>, n: nat | n <= |events| && FeasibleFrom(d, events, n) && NotReopened(events, n, id)
        ensures Holds(After(d, events, n), |c.tunnels|, id)
      {
        HoldsOn(d, events, n, |c.tunnels|, id);
      }
    } else {
      var k :| 0 <= k < |c.tunnels| && c.tunnels[k].id == id && c.tunnels[k].pumping;
      assert d.tunnels[k] == c.tunnels[k];
      OldPumpUnregisters(d, id, k);
    }
  }

  /** A tunnel that is not registered hears nothing. */
  lemma UnregisteredHearsNothing(c: Client, k: nat, payload: seq<byte>, ok: bool)
    requires k < |c.tunnels| && !Registered(c, k)
    requires forall id | id in c.connects :: c.connects[id] < |c.tunnels| && c.tunnels[c.connects[id]].id == id
    ensures Received(c, payload, ok).tunnels[k] == c.tunnels[k]
  {
    hide ToHex;
  }

  // ---- Fresh ids are one way to meet the conditions ----

  /** No session id is started twice. */
  ghost predicate FreshIds(events: seq<Event>) {
    forall i, j | 0 <= i < j < |events| && events[i].Start? && events[j].Start? :: events[i].id != events[j].id
  }

  ghost predicate NeverMade(c: Client, id: string) {
    && (forall k | 0 <= k < |c.tunnels| :: c.tunnels[k].id != id)
    && id !in c.shadowTable
  }

  lemma StepMakes(c: Client, e: Event, id: string)
    requires NeverMade(c, id) && (e.Start? ==> e.id != id)
    ensures NeverMade(Step(c, e), id)
  {
    hide ToHex, Framed;
  }

  lemma NothingMade(id: string)
    ensures NeverMade(NEW, id)
  {
  }

  lemma {:induction false} NotMadeYet(events: seq<Event>, n: nat, id: string)
    requires n <= |events| && forall i | 0 <= i < n && events[i].Start? :: events[i].id != id
    ensures NeverMade(Run(events, n), id)
  {
    hide Step, NeverMade;
    if n == 0 {
      NothingMade(id);
    } else {
      NotMadeYet(events, n - 1, id);
      StepMakes(Run(events, n - 1), events[n - 1], id);
    }
  }

  /** Ids that are never used twice - a new random one for each session - settle everything. */
  lemma {:induction false} FreshIdsSettle(events: seq<Event>, n: nat)
    requires n <= |events| && FreshIds(events)
    ensures TunnelsSettled(events, n) && ShadowsSettled(events, n)
  {
    hide Run;
    if n == 0 {
    } else {
      FreshIdsSettle(events, n - 1);
      if events[n - 1].Start? {
        NotMadeYet(events, n - 1, events[n - 1].id);
      }
    }
  }

  // ---- Shadow sessions, and what a lost channel leaves behind ----

  lemma EndKeepsShadows(c: Client, id: string)
    requires ShadowTables(c)
    ensures ShadowTables(Ended(c, id))
  {
  }

  lemma StartKeepsShadows(c: Client, id: string, mode: Mode, ok: bool, carried: bool)
    requires ShadowTables(c) && c.link != Down && (mode == ShadowMode ==> id !in c.shadowTable)
    ensures ShadowTables(Started(c, id, mode, ok, carried))
  {
  }

  lemma StepKeepsShadows(c: Client, e: Event)
    requires ShadowTables(c) && (e.Start? && e.mode == ShadowMode ==> e.id !in c.shadowTable)
    ensures ShadowTables(Step(c, e))
  {
    hide ToHex, Framed, Started, Ended;
    if e.Start? && c.link != Down {
      StartKeepsShadows(c, e.id, e.mode, e.ok, e.carried);
    } else if e.End? {
      EndKeepsShadows(c, e.id);
    }
  }

  lemma {:induction false} ShadowsKept(events: seq<Event>, n: nat)
    requires n <= |events| && Feasible(events, n) && ShadowsSettled(events, n)
    ensures ShadowTables(Run(events, n))
  {
    hide Feasible, Step, Possible, ShadowTables, Run;
    if n == 0 {
      Initially(events);
    } else {
      Happens(events, n - 1);
      ShadowsKept(events, n - 1);
      StepKeepsShadows(Run(events, n - 1), events[n - 1]);
    }
  }

  /** After the teardown both tables are empty and nothing started over the channel is still running. */
  lemma TearDownReleasesEverything(events: seq<Event>, n: nat)
    requires 0 < n <= |events| && Feasible(events, n) && events[n - 1] == Torn
    requires TunnelsSettled(events, n) && ShadowsSettled(events, n)
    ensures var c := Run(events, n);
            && c.link == Down && c.connects == map[] && c.shadowTable == map[]
            && (forall k | 0 <= k < |c.tunnels| :: !Live(c.tunnels[k]))
            && (forall k | 0 <= k < |c.shadows| :: c.shadows[k].stopped)
  {
    hide Feasible, TunnelsSettled, ShadowsSettled, Alone, Run;
    SessionsDoNotMix(events, n);
    ShadowsKept(events, n);
    Happens(events, n - 1);
  }

  // ---- The other direction ----

  /** The bytes a receiver of the frames takes to be from session s. */
  function Out(sent: seq<Outgoing>, s: string): seq<byte> {
    if sent == [] then []
    else
      Out(sent[..|sent| - 1], s) +
      match sent[|sent| - 1]
      case Data(f) => if For(f, s) then f[16..] else []
      case SessionEnd(_) => []
  }

  function EndsSent(sent: seq<Outgoing>, s: string): nat {
    if sent == [] then 0 else EndsSent(sent[..|sent| - 1], s) + if sent[|sent| - 1] == SessionEnd(s) then 1 else 0
  }

  predicate ReadsFor(e: Event, s: string) {
    e.Read? && e.id == s
  }

  /** What the local sockets of session s said. */
  function Chunks(events: seq<Event>, n: nat, s: string): seq<byte>
    requires n <= |events|
  {
    if n == 0 then [] else Chunks(events, n - 1, s) + if ReadsFor(events[n - 1], s) then events[n - 1].chunk else []
  }

  predicate Sends(e: Event) {
    e.Start? || e.Read? || e.PumpEnds?
  }

  /** The channel takes what is sent at event n: its socket is open, and does not throw. */
  predicate Takes(events: seq<Event>, n: nat)
    requires n < |events| && Sends(events[n])
  {
    Run(events, n).link == Up && events[n].carried
  }

  /** Of what the local sockets of session s said, what was read while the channel took it. */
  function Taken(events: seq<Event>, n: nat, s: string): seq<byte>
    requires n <= |events|
  {
    if n == 0 then []
    else
      Taken(events, n - 1, s) +
      if ReadsFor(events[n - 1], s) && Takes(events, n - 1) then events[n - 1].chunk else []
  }

  lemma OutAppend(sent: seq<Outgoing>, m: Outgoing, s: string)
    ensures Out(sent + [m], s) == Out(sent, s) + if m.Data? && For(m.frame, s) then m.frame[16..] else []
    ensures EndsSent(sent + [m], s) == EndsSent(sent, s) + if m == SessionEnd(s) then 1 else 0
  {
    assert (sent + [m])[..|sent|] == sent;
  }

  ghost predicate CanonicalIds(events: seq<Event>) {
    forall i | 0 <= i < |events| && events[i].Start? :: Canonical(events[i].id)
  }

  lemma ReadSends(c: Client, e: Event, s: string)
    requires Possible(c, e) && e.Read? && Canonical(e.id)
    ensures Out(Step(c, e).sent, s)
              == Out(c.sent, s) + if ReadsFor(e, s) && c.link == Up && e.carried then e.chunk else []
  {
    hide Out, ToHex, Framed, Addressee, PumpOver, Canonical;
    FramingRoundTrip(e.id, e.chunk);
    OutAppend(c.sent, Data(Framed(e.id, e.chunk).value), s);
  }

  lemma OthersSendNothing(c: Client, e: Event, s: string)
    requires Possible(c, e) && !e.Read?
    ensures Out(Step(c, e).sent, s) == Out(c.sent, s)
  {
    hide Out, ToHex;
    if e.Start? || e.PumpEnds? {
      OutAppend(c.sent, SessionEnd(e.id), s);
    }
  }

  lemma StepSends(c: Client, e: Event, s: string)
    requires Possible(c, e) && (e.Read? ==> Canonical(e.id))
    ensures Out(Step(c, e).sent, s)
              == Out(c.sent, s) + if ReadsFor(e, s) && c.link == Up && e.carried then e.chunk else []
  {
    hide Out, Step, Possible, Canonical;
    if e.Read? {
      ReadSends(c, e, s);
    } else {
      OthersSendNothing(c, e, s);
    }
  }

  lemma StepKeepsId(c: Client, e: Event, k: nat)
    requires Possible(c, e) && k < |c.tunnels|
    ensures k < |Step(c, e).tunnels| && Step(c, e).tunnels[k].id == c.tunnels[k].id
  {
    hide ToHex, Framed;
  }

  lemma {:induction false} IdsStayCanonical(events: seq<Event>, n: nat)
    requires n <= |events| && Feasible(events, n) && CanonicalIds(events)
    ensures forall k | 0 <= k < |Run(events, n).tunnels| :: Canonical(Run(events, n).tunnels[k].id)
  {
    hide Feasible, Step, Possible, Canonical, Run;
    if n == 0 {
      Initially(events);
    } else {
      var c, e := Run(events, n - 1), events[n - 1];
      Happens(events, n - 1);
      IdsStayCanonical(events, n - 1);
      StepLength(c, e);
      forall k | 0 <= k < |Step(c, e).tunnels|
        ensures Canonical(Step(c, e).tunnels[k].id)
      {
        if k < |c.tunnels| {
          StepKeepsId(c, e, k);
        }
      }
    }
  }

  /** What gets out for session s is exactly what was read for it while the channel took it, in order. */
  lemma {:induction false} OutIsTaken(events: seq<Event>, n: nat, s: string)
    requires n <= |events| && Feasible(events, n) && CanonicalIds(events)
    ensures Out(Run(events, n).sent, s) == Taken(events, n, s)
  {
    hide Feasible, Step, Canonical, Run;
    if n == 0 {
      Initially(events);
    } else {
      Happens(events, n - 1);
      OutIsTaken(events, n - 1, s);
      IdsStayCanonical(events, n - 1);
      StepSends(Run(events, n - 1), events[n - 1], s);
    }
  }

  ghost predicate AllTaken(events: seq<Event>, n: nat, s: string)
    requires n <= |events|
  {
    forall i | 0 <= i < n && ReadsFor(events[i], s) :: Takes(events, i)
  }

  lemma ChunksAreSomething(events: seq<Event>, n: nat)
    requires n < |events| && Feasible(events, n + 1) && events[n].Read?
    ensures |events[n].chunk| > 0
  {
    Happens(events, n);
  }

  lemma {:induction false} TakenIsAll(events: seq<Event>, n: nat, s: string)
    requires n <= |events| && Feasible(events, n)
    ensures |Taken(events, n, s)| <= |Chunks(events, n, s)|
    ensures if AllTaken(events, n, s) then Taken(events, n, s) == Chunks(events, n, s)
            else |Taken(events, n, s)| < |Chunks(events, n, s)|
  {
    hide Feasible, Takes;
    if n == 0 {
    } else {
      Happens(events, n - 1);
      TakenIsAll(events, n - 1, s);
      if ReadsFor(events[n - 1], s) {
        ChunksAreSomething(events, n - 1);
      }
    }
  }

  /**
    The pumps lose nothing of session s if and only if none of its chunks was read when the
    channel's socket was already gone - which its tunnels outlive, up to the teardown - or
    threw on sending: such a chunk is dropped in silence and the pump goes on.
   */
  lemma PumpsLoseNothingExactly(events: seq<Event>, n: nat, s: string)
    requires n <= |events| && Feasible(events, n) && CanonicalIds(events)
    ensures Out(Run(events, n).sent, s) == Chunks(events, n, s) <==> AllTaken(events, n, s)
  {
    OutIsTaken(events, n, s);
    TakenIsAll(events, n, s);
  }

  // ---- Ends announced ----

  /** Tunnels of session s whose pumps are yet to come to their end. */
  function Pumping(ts: seq<Tunnel>, s: string): nat {
    if ts == [] then 0
    else Pumping(ts[..|ts| - 1], s) + if ts[|ts| - 1].id == s && ts[|ts| - 1].pumping then 1 else 0
  }

  function StartsOf(events: seq<Event>, n: nat, s: string): nat
    requires n <= |events|
  {
    if n == 0 then 0 else StartsOf(events, n - 1, s) + if Opens(events[n - 1]) && events[n - 1].id == s then 1 else 0
  }

  lemma {:induction false} PumpingSame(ts: seq<Tunnel>, us: seq<Tunnel>, s: string)
    requires |us| == |ts| && forall k | 0 <= k < |ts| :: us[k].id == ts[k].id && us[k].pumping == ts[k].pumping
    ensures Pumping(us, s) == Pumping(ts, s)
  {
    if ts == [] {
    } else {
      PumpingSame(ts[..|ts| - 1], us[..|us| - 1], s);
    }
  }

  lemma {:induction false} PumpingLess(ts: seq<Tunnel>, k: nat, u: Tunnel, s: string)
    requires k < |ts| && ts[k].pumping && u.id == ts[k].id && !u.pumping
    ensures Pumping(ts[k := u], s) + (if u.id == s then 1 else 0) == Pumping(ts, s)
  {
    var front := ts[..|ts| - 1];
    if k == |ts| - 1 {
      assert ts[k := u][..|ts| - 1] == front;
    } else {
      assert ts[k := u][..|ts| - 1] == front[k := u];
      PumpingLess(front, k, u, s);
    }
  }

  lemma PumpingMore(ts: seq<Tunnel>, t: Tunnel, s: string)
    ensures Pumping(ts + [t], s) == Pumping(ts, s) + if t.id == s && t.pumping then 1 else 0
  {
    assert (ts + [t])[..|ts|] == ts;
  }

  /** Events at which an end of s is due: a pump ends, framing throws, or no listener answers a start. */
  predicate EndDue(e: Event, s: string) {
    match e
    case Start(id, mode, ok, _) => id == s && mode == ConnectMode && !ok
    case Read(id, _, chunk, _) => id == s && Framed(id, chunk) == None
    case PumpEnds(id, _, _) => id == s
    case _ => false
  }

  /** How many ends of s the first n events make due. */
  function Due(events: seq<Event>, n: nat, s: string): nat
    requires n <= |events|
  {
    if n == 0 then 0 else Due(events, n - 1, s) + if EndDue(events[n - 1], s) then 1 else 0
  }

  /** Of those, the ones whose announcement the channel takes. */
  function DueAndTaken(events: seq<Event>, n: nat, s: string): nat
    requires n <= |events|
  {
    if n == 0 then 0
    else DueAndTaken(events, n - 1, s) + if EndDue(events[n - 1], s) && Takes(events, n - 1) then 1 else 0
  }

  lemma PumpOverEnds(c: Client, k: nat, carried: bool, s: string)
    requires k < |c.tunnels| && c.tunnels[k].pumping
    ensures var d, due := PumpOver(c, k, carried), if c.tunnels[k].id == s then 1 else 0;
            && EndsSent(d.sent, s) == EndsSent(c.sent, s) + (if c.link == Up && carried then due else 0)
            && Pumping(d.tunnels, s) + due == Pumping(c.tunnels, s)
  {
    hide EndsSent, Pumping;
    var t := c.tunnels[k];
    OutAppend(c.sent, SessionEnd(t.id), s);
    PumpingLess(c.tunnels, k, t.(pumping := false, disposed := true), s);
  }

  lemma StartEnds(c: Client, id: string, mode: Mode, ok: bool, carried: bool, s: string)
    ensures var d, begun := Started(c, id, mode, ok, carried), if mode == ConnectMode && id == s then 1 else 0;
            && EndsSent(d.sent, s) == EndsSent(c.sent, s) + (if !ok && c.link == Up && carried then begun else 0)
            && Pumping(d.tunnels, s) == Pumping(c.tunnels, s) + (if ok then begun else 0)
  {
    hide EndsSent, Pumping;
    OutAppend(c.sent, SessionEnd(id), s);
    PumpingMore(c.tunnels, Tunnel(id, ok, false, ok, []), s);
  }

  lemma OthersEndNothing(c: Client, e: Event, s: string)
    requires Possible(c, e) && !e.Start? && !e.PumpEnds? && (e.Read? ==> Framed(e.id, e.chunk).Some?)
    ensures EndsSent(Step(c, e).sent, s) == EndsSent(c.sent, s)
    ensures Pumping(Step(c, e).tunnels, s) == Pumping(c.tunnels, s)
  {
    hide EndsSent, Pumping, ToHex, Framed;
    if e.Read? {
      OutAppend(c.sent, Data(Framed(e.id, e.chunk).value), s);
    }
    PumpingSame(c.tunnels, Step(c, e).tunnels, s);
  }

  /** What an event does to the ends announced and the pumps yet to end. */
  lemma StepEnds(c: Client, e: Event, s: string)
    requires Possible(c, e)
    ensures var d := Step(c, e);
            && EndsSent(d.sent, s)
                 == EndsSent(c.sent, s) + (if EndDue(e, s) && c.link == Up && e.carried then 1 else 0)
            && Pumping(d.tunnels, s) + (if EndDue(e, s) then 1 else 0)
                 == Pumping(c.tunnels, s) + (if Opens(e) && e.id == s then 1 else 0)
  {
    hide EndsSent, Pumping, Started, PumpOver, Framed;
    match e
    case Start(id, mode, ok, carried) => StartEnds(c, id, mode, ok, carried, s);
    case PumpEnds(_, k, carried) => PumpOverEnds(c, k, carried, s);
    case Read(id, k, chunk, carried) =>
      if Framed(id, chunk) == None {
        PumpOverEnds(c, k, carried, s);
      } else {
        OthersEndNothing(c, e, s);
      }
    case _ => OthersEndNothing(c, e, s);
  }

  /**
    In every run, reused ids or not: every end of a session that is due is announced, at once
    and once, if the channel takes it; and each start of it comes due for an end exactly once.
   */
  lemma {:induction false} EndsAnnouncedAreDueAndTaken(events: seq<Event>, n: nat, s: string)
    requires n <= |events| && Feasible(events, n)
    ensures EndsSent(Run(events, n).sent, s) == DueAndTaken(events, n, s)
    ensures Due(events, n, s) + Pumping(Run(events, n).tunnels, s) == StartsOf(events, n, s)
  {
    hide Feasible, Step, Possible, Run, EndDue;
    if n == 0 {
      Initially(events);
    } else {
      Happens(events, n - 1);
      EndsAnnouncedAreDueAndTaken(events, n - 1, s);
      StepEnds(Run(events, n - 1), events[n - 1], s);
      DueSends(events[n - 1], s);
    }
  }

  lemma DueSends(e: Event, s: string)
    ensures EndDue(e, s) ==> Sends(e)
  {
  }

  ghost predicate AllEndsTaken(events: seq<Event>, n: nat, s: string)
    requires n <= |events|
  {
    forall i | 0 <= i < n && EndDue(events[i], s) :: Takes(events, i)
  }

  lemma {:induction false} TakenIsDue(events: seq<Event>, n: nat, s: string)
    requires n <= |events|
    ensures DueAndTaken(events, n, s) <= Due(events, n, s)
    ensures DueAndTaken(events, n, s) == Due(events, n, s) <==> AllEndsTaken(events, n, s)
  {
    hide Takes, EndDue;
    if n == 0 {
    } else {
      TakenIsDue(events, n - 1, s);
      DueSends(events[n - 1], s);
    }
  }

  /**
    So the ends announced of a session and its pumps still running are never more than its
    starts, and they are all of them if and only if the channel took every end that was due.
   */
  lemma EndAnnouncedOnce(events: seq<Event>, n: nat, s: string)
    requires n <= |events| && Feasible(events, n)
    ensures var accounted := EndsSent(Run(events, n).sent, s) + Pumping(Run(events, n).tunnels, s);
            && accounted <= StartsOf(events, n, s)
            && (accounted == StartsOf(events, n, s) <==> AllEndsTaken(events, n, s))
  {
    EndsAnnouncedAreDueAndTaken(events, n, s);
    TakenIsDue(events, n, s);
  }

  /** It does happen: an id started twice over one channel, and the new tunnel is open and deaf. */
  lemma ReusedIdStrandsNewTunnel(id: string)
    ensures var start := Start(id, ConnectMode, true, true);
            var events := [Connected, start, start, PumpEnds(id, 0, true)];
            && Feasible(events, 4)
            && var c := Run(events, 4);
            && |c.tunnels| == 2 && Live(c.tunnels[1]) && c.tunnels[1].id == id && !Registered(c, 1)
  {
    hide ToHex, Framed;
    var start := Start(id, ConnectMode, true, true);
    var events := [Connected, start, start, PumpEnds(id, 0, true)];
    var t := Tunnel(id, true, false, true, []);
    var c1 := NEW.(link := Up);
    var c2 := c1.(tunnels := [t], connects := map[id := 0]);
    var c3 := c1.(tunnels := [t, t], connects := map[id := 1]);
    assert Run(events, 0) == NEW && Feasible(events, 0);
    assert Run(events, 1) == c1 && Feasible(events, 1) by {
      assert Possible(NEW, events[0]);
    }
    assert Run(events, 2) == c2 && Feasible(events, 2) by {
      assert Possible(c1, events[1]);
    }
    assert Run(events, 3) == c3 && Feasible(events, 3) by {
      assert Possible(c2, events[2]);
    }
    assert Possible(c3, events[3]);
  }

  // ---- The objects ----

  /** What a pump's turn is, by what it reads: nothing at the end of the stream. */
  function TurnOf(id: string, k: nat, chunk: seq<byte>, carried: bool): Event {
    if chunk == [] then PumpEnds(id, k, carried) else Read(id, k, chunk, carried)
  }

  class ConnectTunnel {
    const sessionId: string
    ghost const serial: nat   // how many were made before it
    var connected: bool
    var disposed: bool
    var pumping: bool
    var written: seq<byte>

    ghost function View(): Tunnel
      reads this
    {
      Tunnel(sessionId, connected, disposed, pumping, written)
    }

    constructor (id: string, ghost n: nat)
      ensures View() == Tunnel(id, false, false, false, []) && serial == n
    {
      serial := n;
      sessionId, connected, disposed, pumping, written := id, false, false, false, [];
    }

    method StartTunnel(channel: ControlChannelClient, ok: bool, carried: bool)
      modifies this, channel`wire
      ensures View() == old(View()).(connected := ok, pumping := ok)
      ensures channel.wire
                == old(channel.wire) + if !ok && channel.link == Up && carried then [SessionEnd(sessionId)] else []
    {
      connected, pumping := ok, ok;
      if !ok {
        channel.Send(SessionEnd(sessionId), carried);
      }
    }

    method OnAgentBytesReceived(chunk: seq<byte>, ok: bool)
      modifies this`written
      ensures written == old(written) + if Live(View()) && ok then chunk else []
    {
      if !connected || disposed {
        return;
      }
      if ok {
        written := written + chunk;
      }
    }

    method Dispose()
      modifies this`disposed
      ensures disposed
    {
      if !disposed {
        disposed := true;
      }
    }
  }

  class ShadowSession {
    const sessionId: string
    ghost const serial: nat
    var stopped: bool

    ghost function View(): Shadow
      reads this
    {
      Shadow(sessionId, stopped)
    }

    constructor (id: string, ghost n: nat)
      ensures View() == Shadow(id, false) && serial == n
    {
      serial := n;
      sessionId, stopped := id, false;
    }

    method Stop()
      modifies this
      ensures stopped
    {
      stopped := true;
    }
  }

  class ControlChannelClient {
    var link: Link
    var connectTunnels: map<string, ConnectTunnel>
    var shadowSessions: map<string, ShadowSession>
    var wire: seq<Outgoing>
    ghost var tunnels: seq<ConnectTunnel>
    ghost var sessions: seq<ShadowSession>

    ghost predicate TunnelsAre(ts: seq<Tunnel>, table: map<string, nat>)
      reads this`tunnels, this`connectTunnels, tunnels
    {
      && |tunnels| == |ts|
      && (forall k | 0 <= k < |tunnels| :: tunnels[k].serial == k && tunnels[k].View() == ts[k])
      && connectTunnels.Keys == table.Keys
      && (forall id | id in table ::
            table[id] < |tunnels| && connectTunnels[id] == tunnels[table[id]] && connectTunnels[id].sessionId == id)
    }

    ghost predicate SessionsAre(ss: seq<Shadow>, table: map<string, nat>)
      reads this`sessions, this`shadowSessions, sessions
    {
      && |sessions| == |ss|
      && (forall k | 0 <= k < |sessions| :: sessions[k].serial == k && sessions[k].View() == ss[k])
      && shadowSessions.Keys == table.Keys
      && (forall id | id in table ::
            table[id] < |sessions| && shadowSessions[id] == sessions[table[id]] && shadowSessions[id].sessionId == id)
    }

    /** This object, its tables and every tunnel and session it made are in the state c. */
    ghost predicate Represents(c: Client)
      reads this, tunnels, sessions
    {
      && link == c.link && wire == c.sent
      && TunnelsAre(c.tunnels, c.connects) && SessionsAre(c.shadows, c.shadowTable)
    }

    constructor ()
      ensures Represents(NEW)
    {
      link, connectTunnels, shadowSessions, wire := Down, map[], map[], [];
      tunnels, sessions := [], [];
    }

    /** `carried`: whether the socket takes the message; what it throws otherwise is only logged. */
    method Send(m: Outgoing, carried: bool)
      modifies this`wire
      ensures wire == old(wire) + if link == Up && carried then [m] else []
    {
      if link != Up {
        return;
      }
      if carried {
        wire := wire + [m];
      }
    }

    /** False where the hex codec or the copy throws. */
    method SendBinary(sessionId: string, chunk: seq<byte>, carried: bool) returns (ok: bool)
      modifies this`wire
      ensures ok <==> Framed(sessionId, chunk).Some?
      ensures wire == old(wire) + if ok && link == Up && carried then [Data(Framed(sessionId, chunk).value)] else []
    {
      var id := FromHex(sessionId);
      if id == None || |id.value| > 16 + |chunk| {
        return false;
      }
      var framed := new byte[16 + |chunk|](_ => 0);
      forall k | 0 <= k < |id.value| {
        framed[k] := id.value[k];
      }
      forall k | 0 <= k < |chunk| {
        framed[16 + k] := chunk[k];
      }
      assert framed[..] == Framed(sessionId, chunk).value;
      Send(Data(framed[..]), carried);
      return true;
    }

    method Connect(ghost c: Client)
      requires Represents(c) && c.link == Down
      modifies this`link
      ensures Represents(Step(c, Connected))
    {
      link := Up;
    }

    /** The socket closes, or - first thing in the clean-up - is set to null. */
    method LoseSocket(ghost c: Client)
      requires Represents(c) && c.link == Up
      modifies this`link
      ensures Represents(Step(c, SocketLost))
    {
      link := Closing;
    }

    method StopRegistered(ghost ss: seq<Shadow>, ghost table: map<string, nat>, id: string)
      requires SessionsAre(ss, table) && id in shadowSessions
      modifies sessions
      ensures SessionsAre(StoppedAt(ss, table[id]), table)
    {
      assert forall j | 0 <= j < |sessions| && j != table[id] :: sessions[j] != sessions[table[id]];
      shadowSessions[id].Stop();
    }

    method DisposeRegistered(ghost ts: seq<Tunnel>, ghost table: map<string, nat>, id: string)
      requires TunnelsAre(ts, table) && id in connectTunnels
      modifies tunnels
      ensures TunnelsAre(DisposedAt(ts, table[id]), table)
    {
      assert forall j | 0 <= j < |tunnels| && j != table[id] :: tunnels[j] != tunnels[table[id]];
      connectTunnels[id].Dispose();
    }

    method EndShadow(ghost c: Client, id: string)
      requires SessionsAre(c.shadows, c.shadowTable)
      modifies this`shadowSessions, sessions
      ensures SessionsAre(Ended(c, id).shadows, Ended(c, id).shadowTable)
    {
      if id in shadowSessions {
        StopRegistered(c.shadows, c.shadowTable, id);
        shadowSessions := shadowSessions - {id};
      }
    }

    method EndTunnel(ghost c: Client, id: string)
      requires TunnelsAre(c.tunnels, c.connects)
      modifies this`connectTunnels, tunnels
      ensures TunnelsAre(Ended(c, id).tunnels, Ended(c, id).connects)
    {
      if id in connectTunnels {
        DisposeRegistered(c.tunnels, c.connects, id);
        connectTunnels := connectTunnels - {id};
      }
    }

    method HandleSessionEnd(ghost c: Client, id: string)
      requires Represents(c) && c.link != Down
      modifies this, tunnels, sessions
      ensures Represents(Step(c, End(id)))
    {
      hide TunnelsAre, SessionsAre;
      EndShadow(c, id);
      EndTunnel(c, id);
    }

    method StartShadow(ghost c: Client, id: string)
      requires SessionsAre(c.shadows, c.shadowTable)
      modifies this`shadowSessions, this`sessions
      ensures var d := Started(c, id, ShadowMode, true, true);
              SessionsAre(d.shadows, d.shadowTable)
    {
      var session := new ShadowSession(id, |sessions|);
      shadowSessions := shadowSessions[id := session];
      sessions := sessions + [session];
    }

    method AddTunnel(ghost c: Client, id: string) returns (tunnel: ConnectTunnel)
      requires TunnelsAre(c.tunnels, c.connects)
      modifies this`connectTunnels, this`tunnels
      ensures TunnelsAre(c.tunnels + [Tunnel(id, false, false, false, [])], c.connects[id := |c.tunnels|])
      ensures fresh(tunnel) && tunnel == tunnels[|c.tunnels|]
    {
      tunnel := new ConnectTunnel(id, |tunnels|);
      connectTunnels := connectTunnels[id := tunnel];
      tunnels := tunnels + [tunnel];
    }

    method StartTunnel(ghost c: Client, id: string, ok: bool, carried: bool)
      requires TunnelsAre(c.tunnels, c.connects) && link == c.link && wire == c.sent
      modifies this`connectTunnels, this`tunnels, this`wire
      ensures var d := Started(c, id, ConnectMode, ok, carried);
              TunnelsAre(d.tunnels, d.connects) && wire == d.sent
    {
      var tunnel := AddTunnel(c, id);
      assert forall j | 0 <= j < |c.tunnels| :: tunnels[j] != tunnel;
      tunnel.StartTunnel(this, ok, carried);
    }

    method HandleSessionStart(ghost c: Client, id: string, mode: Mode, ok: bool, carried: bool)
      requires Represents(c) && c.link != Down
      modifies this
      ensures Represents(Step(c, Start(id, mode, ok, carried)))
    {
      if mode == ShadowMode {
        StartShadow(c, id);
      } else if mode == ConnectMode {
        StartTunnel(c, id, ok, carried);
      }
    }

    method Deliver(ghost c: Client, sessionId: string, chunk: seq<byte>, ok: bool)
      requires TunnelsAre(c.tunnels, c.connects)
      modifies tunnels
      ensures TunnelsAre(Delivered(c, sessionId, chunk, ok).tunnels, c.connects)
    {
      if sessionId in connectTunnels {
        ghost var k := c.connects[sessionId];
        assert forall j | 0 <= j < |tunnels| && j != k :: tunnels[j] != tunnels[k];
        connectTunnels[sessionId].OnAgentBytesReceived(chunk, ok);
      }
    }

    method HandleBinaryMessage(ghost c: Client, payload: seq<byte>, ok: bool)
      requires Represents(c) && c.link != Down
      modifies tunnels
      ensures Represents(Step(c, Binary(payload, ok)))
    {
      hide TunnelsAre, SessionsAre;
      if |payload| < 16 {
        return;
      }
      var sessionId := ToHex(payload[..16]);
      Deliver(c, sessionId, payload[16..], ok);
    }

    method RemoveConnectTunnel(id: string)
      modifies this`connectTunnels
      ensures connectTunnels == old(connectTunnels) - {id}
    {
      connectTunnels := connectTunnels - {id};
    }

    /** The end of a tunnel's pump. */
    method WindUp(ghost c: Client, tunnel: ConnectTunnel, carried: bool)
      requires Represents(c) && tunnel in tunnels
      modifies this`wire, this`connectTunnels, tunnel
      ensures tunnel.serial < |c.tunnels| && Represents(PumpOver(c, tunnel.serial, carried))
    {
      Send(SessionEnd(tunnel.sessionId), carried);
      RemoveConnectTunnel(tunnel.sessionId);
      tunnel.Dispose();
      tunnel.pumping := false;
    }

    /** One turn of a pump: it forwards a chunk, or - at the end of its stream, or when framing throws - winds up. */
    method PumpTurn(ghost c: Client, tunnel: ConnectTunnel, chunk: seq<byte>, carried: bool)
      requires Represents(c) && tunnel in tunnels
      requires Possible(c, TurnOf(tunnel.sessionId, tunnel.serial, chunk, carried))
      modifies this`wire, this`connectTunnels, tunnel
      ensures Represents(Step(c, TurnOf(tunnel.sessionId, tunnel.serial, chunk, carried)))
    {
      hide TunnelsAre, SessionsAre, Framed;
      if chunk != [] {
        var ok := SendBinary(tunnel.sessionId, chunk, carried);
        if ok {
          return;
        }
      }
      WindUp(c, tunnel, carried);
    }

    lemma TunnelUnder(ts: seq<Tunnel>, table: map<string, nat>, id: string)
      requires TunnelsAre(ts, table) && id in connectTunnels
      ensures id in table && table[id] < |ts| && ts[table[id]].id == id
    {
    }

    lemma SessionUnder(ss: seq<Shadow>, table: map<string, nat>, id: string)
      requires SessionsAre(ss, table) && id in shadowSessions
      ensures id in table && table[id] < |ss| && ss[table[id]].id == id
    {
    }

    method DisposeTunnels(ghost c: Client)
      requires TunnelsAre(c.tunnels, c.connects)
      modifies tunnels
      ensures TunnelsAre(TornDown(c).tunnels, c.connects)
    {
      var left := connectTunnels.Keys;
      DisposedNone(c);
      assert left == c.connects.Keys;
      hide TunnelsAre;
      while left != {}
        invariant left <= connectTunnels.Keys
        invariant TunnelsAre(DisposedBut(c, left), c.connects)
        decreases left
      {
        var id :| id in left;
        TunnelUnder(DisposedBut(c, left), c.connects, id);
        DisposeRegistered(DisposedBut(c, left), c.connects, id);
        DisposeOneMore(c, left, id);
        left := left - {id};
      }
    }

    method StopSessions(ghost c: Client)
      requires SessionsAre(c.shadows, c.shadowTable)
      modifies sessions
      ensures SessionsAre(TornDown(c).shadows, c.shadowTable)
    {
      var left := shadowSessions.Keys;
      StoppedNone(c);
      assert left == c.shadowTable.Keys;
      hide SessionsAre;
      while left != {}
        invariant left <= shadowSessions.Keys
        invariant SessionsAre(StoppedBut(c, left), c.shadowTable)
        decreases left
      {
        var id :| id in left;
        SessionUnder(StoppedBut(c, left), c.shadowTable, id);
        StopRegistered(StoppedBut(c, left), c.shadowTable, id);
        StopOneMore(c, left, id);
        left := left - {id};
      }
    }

    method ClearTunnels(ghost ts: seq<Tunnel>, ghost table: map<string, nat>)
      requires TunnelsAre(ts, table)
      modifies this`connectTunnels
      ensures TunnelsAre(ts, map[])
    {
      connectTunnels := map[];
    }

    method ClearSessions(ghost ss: seq<Shadow>, ghost table: map<string, nat>)
      requires SessionsAre(ss, table)
      modifies this`shadowSessions
      ensures SessionsAre(ss, map[])
    {
      shadowSessions := map[];
    }

    method TearDown(ghost c: Client)
      requires Represents(c) && c.link == Closing
      modifies this, tunnels, sessions
      ensures Represents(Step(c, Torn))
    {
      hide TunnelsAre, SessionsAre;
      StopSessions(c);
      ClearSessions(TornDown(c).shadows, c.shadowTable);
      DisposeTunnels(c);
      ClearTunnels(TornDown(c).tunnels, c.connects);
      link := Down;
    }
  }
}
