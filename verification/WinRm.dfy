/**
  Talking to a Windows guest over WinRM: carrying a script that is too long for one command
  line, and running a script as a SYSTEM scheduled task.

  Every remote call is answered by `host`, an arbitrary function from the number of the call
  to a reply or an exception; the calls made are logged in order.
 */
module WinRm {
  import opened Common
  import Base64
  import Utf8

  const LONG_SCRIPT_THRESHOLD: nat := 2000
  const SCRIPT_CHUNK_SIZE: nat := 1800
  /** Bytes of script carried by one full chunk: three for every four Base64 characters. */
  const CHUNK_BYTES: nat := 1350
  const PS_HEADER := "$ProgressPreference = 'SilentlyContinue'; $ErrorActionPreference = 'Stop'; "

  datatype Reply = Raised | Returned(status: int, stdout: string, stderr: string) {
    predicate Ok() { Returned? && status == 0 }
  }

  /** What a Python call ends in: a result object, or an exception. */
  datatype Outcome = Exception | Value(status: int, stdout: string, stderr: string) {
    predicate Ok() { Value? && status == 0 }
  }

  datatype Command =
    | Execute(script: string)
    | CreateFile(path: string)
    | AppendChunk(path: string, chunk: string)
    | RunFile(path: string)
    | RemoveFile(path: string)
    | Register(task: string, path: string)
    | Poll(task: string)
    | ReadOutcome(path: string)
    | CleanUp(task: string, script: string, result: string)

  function Answer(r: Reply): Outcome {
    match r
    case Raised => Exception
    case Returned(c, o, e) => Value(c, o, e)
  }

  // ---- Carrying a long script ----

  function Appends(path: string, chunks: seq<string>): (r: seq<Command>)
    ensures |r| == |chunks|
  {
    if chunks == [] then [] else [AppendChunk(path, chunks[0])] + Appends(path, chunks[1..])
  }

  function Chunks(content: string): seq<string> {
    Base64.Pieces(Base64.Encode(Utf8.Encode(content)), SCRIPT_CHUNK_SIZE)
  }

  /** The commands that write `content`, if all goes well. */
  function WritePlan(content: string, path: string): seq<Command> {
    [CreateFile(path)] + Appends(path, Chunks(content))
  }

  /**
    What is used of the guest's decoder: it reads well-formed text right, and what is ill-formed
    does not vanish - every byte that can begin a character, and a continuation byte in front,
    yields a character, if only a replacement. Whether it puts one replacement for a byte or
    one for several is left open.
   */
  ghost predicate Decoder(decode: seq<byte> -> string) {
    && (forall text: string :: decode(Utf8.Encode(text)) == text)
    && (forall s: seq<byte> ::
          |decode(s)| >= Utf8.Leads(s) + if s != [] && Utf8.Continuation(s[0]) then 1 else 0)
  }

  lemma LossyIsDecoder()
    ensures Decoder(Utf8.DecodeLossy)
  {
    forall text: string
      ensures Utf8.DecodeLossy(Utf8.Encode(text)) == text
    {
      Utf8.DecodeOfEncode(text);
    }
    forall s: seq<byte>
      ensures |Utf8.DecodeLossy(s)| >= Utf8.Leads(s) + if s != [] && Utf8.Continuation(s[0]) then 1 else 0
    {
      Utf8.LossyLength(s);
    }
  }

  /** The text a file holds after `cmds` have all been executed by the guest (behind what creating it wrote). */
  function FileText(cmds: seq<Command>, path: string, text: string, decode: seq<byte> -> string): Option<string> {
    if cmds == [] then Some(text)
    else
      match cmds[0]
      case AppendChunk(p, c) =>
        if p != path then FileText(cmds[1..], path, text, decode)
        else
          (match Base64.Decode(c)
           case None => None
           case Some(bytes) => FileText(cmds[1..], path, text + decode(bytes), decode))
      case CreateFile(p) => FileText(cmds[1..], path, if p == path then "" else text, decode)
      case _ => FileText(cmds[1..], path, text, decode)
  }

  /** Decoding every piece on its own, then joining the texts. */
  function Joined(pieces: seq<seq<byte>>, decode: seq<byte> -> string): string {
    if pieces == [] then "" else decode(pieces[0]) + Joined(pieces[1..], decode)
  }

  lemma JoinedOne(piece: seq<byte>, decode: seq<byte> -> string)
    ensures Joined([piece], decode) == decode(piece)
  {
    var one: seq<seq<byte>> := [piece];
    assert one[1..] == [];
  }

  lemma {:induction false} AppendsJoin(path: string, pieces: seq<seq<byte>>, text: string, decode: seq<byte> -> string)
    ensures FileText(Appends(path, Base64.EncodeEach(pieces)), path, text, decode)
              == Some(text + Joined(pieces, decode))
    decreases |pieces|
  {
    if pieces == [] {
      assert text + "" == text;
    } else {
      var c := Base64.Encode(pieces[0]);
      Base64.DecodeOfEncode(pieces[0]);
      var first := decode(pieces[0]);
      AppendsJoin(path, pieces[1..], text + first, decode);
      assert text + first + Joined(pieces[1..], decode) == text + (first + Joined(pieces[1..], decode));
      AppendsStep(path, c, Base64.EncodeEach(pieces[1..]));
    }
  }

  lemma AppendsStep(path: string, c: string, rest: seq<string>)
    ensures Appends(path, [c] + rest)[0] == AppendChunk(path, c)
    ensures Appends(path, [c] + rest)[1..] == Appends(path, rest)
  {
    assert ([c] + rest)[1..] == rest;
  }

  /** The chunks carry the script's bytes, for every script, and no chunk is too long for a command line. */
  lemma ChunksCarryBytes(content: string)
    ensures Chunks(content) == Base64.EncodeEach(Base64.Pieces(Utf8.Encode(content), CHUNK_BYTES))
    ensures Flatten(Base64.Pieces(Utf8.Encode(content), CHUNK_BYTES)) == Utf8.Encode(content)
    ensures forall c | c in Chunks(content) :: 0 < |c| <= SCRIPT_CHUNK_SIZE
  {
    Base64.PiecesOfEncoded(Utf8.Encode(content), 450);
    Base64.PiecesFlatten(Utf8.Encode(content), CHUNK_BYTES);
    Base64.PieceSizes(Base64.Encode(Utf8.Encode(content)), SCRIPT_CHUNK_SIZE);
  }

  /** The k-th cut through the encoded script falls inside a character. */
  predicate SplitsChar(bytes: seq<byte>, k: nat) {
    k > 0 && CHUNK_BYTES * k < |bytes| && Utf8.Continuation(bytes[CHUNK_BYTES * k])
  }

  /** No cut through the encoded script falls inside a character. */
  ghost predicate Uncut(content: string) {
    forall k: nat :: !SplitsChar(Utf8.Encode(content), k)
  }

  lemma SplitsLater(bytes: seq<byte>, k: nat)
    requires |bytes| > CHUNK_BYTES && k > 0
    ensures SplitsChar(bytes[CHUNK_BYTES..], k) <==> SplitsChar(bytes, k + 1)
  {
  }

  lemma {:induction false} JoinedOfWhole(text: string, decode: seq<byte> -> string)
    requires Decoder(decode) && forall k: nat :: !SplitsChar(Utf8.Encode(text), k)
    ensures Joined(Base64.Pieces(Utf8.Encode(text), CHUNK_BYTES), decode) == text
    decreases |Utf8.Encode(text)|
  {
    var s := Utf8.Encode(text);
    if s == [] {
      Utf8.EncodedLength(text);
    } else if |s| <= CHUNK_BYTES {
      JoinedOne(s, decode);
    } else {
      assert !SplitsChar(s, 1);
      var i := Utf8.CutAtLead(text, CHUNK_BYTES);
      assert decode(Utf8.Encode(text[..i])) == text[..i];
      forall k: nat ensures !SplitsChar(Utf8.Encode(text[i..]), k) {
        if k > 0 {
          SplitsLater(s, k);
        }
      }
      JoinedOfWhole(text[i..], decode);
      assert text == text[..i] + text[i..];
    }
  }

  lemma {:induction false} JoinedLength(s: seq<byte>, k: nat, decode: seq<byte> -> string)
    requires Decoder(decode)
    ensures var length := |Joined(Base64.Pieces(s, CHUNK_BYTES), decode)|;
            && length >= Utf8.Leads(s)
            && (s != [] && Utf8.Continuation(s[0]) ==> length > Utf8.Leads(s))
            && (SplitsChar(s, k) ==> length > Utf8.Leads(s))
    decreases |s|
  {
    if s == [] {
    } else if |s| <= CHUNK_BYTES {
      JoinedOne(s, decode);
    } else {
      var a, b := s[..CHUNK_BYTES], s[CHUNK_BYTES..];
      assert s == a + b;
      Utf8.LeadsConcat(a, b);
      assert |decode(a)| >= Utf8.Leads(a);
      if k > 1 {
        SplitsLater(s, k - 1);
      }
      JoinedLength(b, if k > 0 then k - 1 else 0, decode);
    }
  }

  /**
    Whatever the file held before, and whatever the decoder puts for ill-formed bytes, it ends
    up holding the script's text exactly when no cut falls inside a character - that is, when no
    byte at a multiple of 1350 is a continuation byte.
   */
  lemma ScriptArrives(content: string, path: string, before: string, decode: seq<byte> -> string)
    requires Decoder(decode)
    ensures FileText(WritePlan(content, path), path, before, decode) == Some(content) <==> Uncut(content)
  {
    var s := Utf8.Encode(content);
    var pieces := Base64.Pieces(s, CHUNK_BYTES);
    ChunksCarryBytes(content);
    AppendsJoin(path, pieces, "", decode);
    assert WritePlan(content, path)[1..] == Appends(path, Chunks(content));
    assert "" + Joined(pieces, decode) == Joined(pieces, decode);
    Utf8.LeadsOfEncode(content);
    if k: nat :| SplitsChar(s, k) {
      JoinedLength(s, k, decode);
    } else {
      JoinedOfWhole(content, decode);
    }
  }

  /** An ASCII script always arrives. */
  lemma {:induction false} AsciiArrives(content: string, path: string, before: string, decode: seq<byte> -> string)
    requires Utf8.Ascii(content) && Decoder(decode)
    ensures FileText(WritePlan(content, path), path, before, decode) == Some(content)
  {
    hide Decoder;
    forall k: nat ensures !SplitsChar(Utf8.Encode(content), k) {
      if k > 0 && CHUNK_BYTES * k < |Utf8.Encode(content)| {
        Utf8.AsciiHasLeads(content, CHUNK_BYTES * k);
      }
    }
    ScriptArrives(content, path, before, decode);
  }

  // ---- Sending until something fails ----

  /** The calls an operation makes and what it ends in. */
  datatype Trace = Trace(calls: seq<Command>, outcome: Outcome)

  /** Making the planned calls one by one up to the first that does not succeed; `from` is the first call's number. */
  function SendAllOf(host: nat -> Reply, from: nat, plan: seq<Command>): Trace
    decreases |plan|
  {
    if plan == [] then Trace([], Value(0, "", ""))
    else if !host(from).Ok() then Trace([plan[0]], Answer(host(from)))
    else
      var rest := SendAllOf(host, from + 1, plan[1..]);
      Trace([plan[0]] + rest.calls, rest.outcome)
  }

  /** The `n` calls from number `from` on all succeed. */
  ghost predicate AllOk(host: nat -> Reply, from: nat, n: nat) {
    forall i: nat | from <= i < from + n :: host(i).Ok()
  }

  /** All calls are made if all succeed; otherwise the last one made is the first bad one, and decides. */
  lemma {:induction false} SendAllMeans(host: nat -> Reply, from: nat, plan: seq<Command>)
    ensures var run := SendAllOf(host, from, plan);
            && run.calls <= plan
            && (run.outcome.Ok() <==> AllOk(host, from, |plan|))
            && (run.outcome.Ok() ==> run == Trace(plan, Value(0, "", "")))
            && (!run.outcome.Ok() ==>
                 var last := from + |run.calls| - 1;
                 && |run.calls| > 0 && AllOk(host, from, |run.calls| - 1)
                 && !host(last).Ok() && run.outcome == Answer(host(last)))
    decreases |plan|
  {
    if plan == [] {
    } else {
      SendAllMeans(host, from + 1, plan[1..]);
      assert plan == [plan[0]] + plan[1..];
    }
  }

  /** Running a long script: write it, run it, remove the file. */
  function LongRunOf(host: nat -> Reply, from: nat, script: string, path: string): Trace {
    var written := SendAllOf(host, from, WritePlan(script, path));
    var end := from + |written.calls|;
    if !written.outcome.Ok() then written
    else if host(end).Raised? then Trace(written.calls + [RunFile(path)], Exception)
    else Trace(written.calls + [RunFile(path), RemoveFile(path)],
               if host(end + 1).Raised? then Exception else Answer(host(end)))
  }

  /**
    What running a long script must do, said about the calls themselves. If all calls of the
    write succeed, they come first, then the file is run - once, with nothing in between - and,
    if that returns, removed; the outcome is the run's answer unless running or removing raises.
    If not, the calls stop at the first that did not succeed, whose answer is the outcome, and
    the file is neither run nor removed.
   */
  ghost predicate LongRun(host: nat -> Reply, from: nat, script: string, path: string, run: Trace) {
    var plan := WritePlan(script, path);
    var end := from + |plan|;
    if AllOk(host, from, |plan|) then
      && plan <= run.calls
      && run.calls[|plan|..] == [RunFile(path)] + (if host(end).Returned? then [RemoveFile(path)] else [])
      && run.outcome == if host(end).Raised? || host(end + 1).Raised? then Exception else Answer(host(end))
    else
      var last := from + |run.calls| - 1;
      && 0 < |run.calls| && run.calls <= plan
      && AllOk(host, from, |run.calls| - 1) && !host(last).Ok() && run.outcome == Answer(host(last))
  }

  lemma LongRunOfIsLongRun(host: nat -> Reply, from: nat, script: string, path: string)
    ensures LongRun(host, from, script, path, LongRunOf(host, from, script, path))
  {
    hide WritePlan;
    var plan, run := WritePlan(script, path), LongRunOf(host, from, script, path);
    SendAllMeans(host, from, plan);
    if AllOk(host, from, |plan|) {
      assert run.calls[..|plan|] == plan;
    }
  }

  lemma {:induction false} AppendsOnly(path: string, chunks: seq<string>)
    ensures forall c | c in Appends(path, chunks) :: c.AppendChunk? && c.path == path
  {
    if chunks == [] {
    } else {
      AppendsOnly(path, chunks[1..]);
    }
  }

  lemma RunOnce(plan: seq<Command>, tail: seq<Command>, path: string)
    requires forall c | c in plan :: c.CreateFile? || c.AppendChunk?
    requires forall i | 0 < i < |tail| :: tail[i].RemoveFile?
    ensures forall i | 0 <= i < |plan + tail| && i != |plan| :: (plan + tail)[i] != RunFile(path)
  {
    forall i | 0 <= i < |plan + tail| && i != |plan|
      ensures (plan + tail)[i] != RunFile(path)
    {
      if i < |plan| {
        assert (plan + tail)[i] in plan;
      } else {
        assert (plan + tail)[i] == tail[i - |plan|];
      }
    }
  }

  lemma WritePlanOnly(script: string, path: string)
    ensures forall c | c in WritePlan(script, path) :: c.CreateFile? || c.AppendChunk?
  {
    AppendsOnly(path, Chunks(script));
  }

  /**
    So a long script is run if and only if it was written completely, then exactly once, when
    the calls before have left in the file what `ScriptArrives` speaks of.
   */
  lemma LongScriptIsRun(host: nat -> Reply, from: nat, script: string, path: string, run: Trace,
                        before: string, decode: seq<byte> -> string)
    requires LongRun(host, from, script, path, run) && Decoder(decode)
    ensures RunFile(path) in run.calls <==> AllOk(host, from, |WritePlan(script, path)|)
    ensures RemoveFile(path) in run.calls ==> RunFile(path) in run.calls
    ensures forall i | 0 <= i < |run.calls| && run.calls[i] == RunFile(path) ::
              && i == |WritePlan(script, path)|
              && (FileText(run.calls[..i], path, before, decode) == Some(script) <==> Uncut(script))
  {
    hide WritePlan, FileText, Decoder, Uncut;
    var plan := WritePlan(script, path);
    WritePlanOnly(script, path);
    ScriptArrives(script, path, before, decode);
    if AllOk(host, from, |plan|) {
      var tail := run.calls[|plan|..];
      assert run.calls == plan + tail && run.calls[|plan|] == tail[0];
      RunOnce(plan, tail, path);
      assert run.calls[..|plan|] == plan;
    } else {
      assert forall c | c in run.calls :: c in plan;
    }
  }

  /**
    Unlike a task's clean-up, removing the temporary file can change the outcome: an exception
    there replaces the result of a script that ran; and the file stays behind exactly when
    running the script raised.
   */
  lemma RemovalCanMaskResult(host: nat -> Reply, from: nat, script: string, path: string)
    requires AllOk(host, from, |WritePlan(script, path)|)
    ensures var end := from + |WritePlan(script, path)|;
            var run := LongRunOf(host, from, script, path);
            && (host(end).Returned? ==> (run.outcome == Answer(host(end)) <==> host(end + 1).Returned?))
            && |run.calls| > 0 && (run.calls[|run.calls| - 1] == RemoveFile(path) <==> host(end).Returned?)
  {
    SendAllMeans(host, from, WritePlan(script, path));
  }

  // ---- Polling and reading the outcome of a task ----

  predicate Space(c: char) {
    var n := c as int;
    9 <= n <= 13 || 28 <= n <= 32 || n == 0x85 || n == 0xA0 || n == 0x1680 || 0x2000 <= n <= 0x200A
    || n == 0x2028 || n == 0x2029 || n == 0x202F || n == 0x205F || n == 0x3000
  }

  function StripLeft(s: string): string {
    if s != "" && Space(s[0]) then StripLeft(s[1..]) else s
  }

  function StripRight(s: string): string {
    if s != "" && Space(s[|s| - 1]) then StripRight(s[..|s| - 1]) else s
  }

  function Strip(s: string): string {
    StripRight(StripLeft(s))
  }

  /** A poll that ends the waiting. */
  predicate Done(r: Reply) {
    r.Ok() && Strip(r.stdout) !in {"Running", ""}
  }

  function Polls(host: nat -> Reply, from: nat, max: nat): nat
    decreases max
  {
    if max == 0 then 0 else if Done(host(from)) then 1 else 1 + Polls(host, from + 1, max - 1)
  }

  function Finished(host: nat -> Reply, from: nat, max: nat): bool
    decreases max
  {
    max > 0 && (Done(host(from)) || Finished(host, from + 1, max - 1))
  }

  function Reads(host: nat -> Reply, from: nat): nat {
    if host(from).Returned? then 1 else if host(from + 1).Returned? then 2 else 3
  }

  function NotFinished(task: string): string {
    "scheduled task " + task + " did not finish within the expected time."
  }

  function NoResult(task: string): string {
    "scheduled task " + task + " produced no result."
  }

  function Judge(task: string, stdout: string): Outcome {
    var output := Strip(stdout);
    if "OK:" <= output then Value(0, output[3..], "")
    else if "FAIL:" <= output then Value(1, "", output[5..])
    else Value(1, "", if output == "" then NoResult(task) else output)
  }

  /** What became of a registered task: how often it was polled and read, and the verdict. */
  datatype Task = Task(polls: nat, attempts: nat, verdict: Outcome)

  function TaskOf(host: nat -> Reply, from: nat, task: string, max: nat): Task {
    var polls := Polls(host, from, max);
    if !Finished(host, from, max) then Task(polls, 0, Value(1, "", NotFinished(task)))
    else
      var attempts := Reads(host, from + polls);
      var last := host(from + polls + attempts - 1);
      Task(polls, attempts, if last.Raised? then Exception else Judge(task, last.stdout))
  }

  ghost predicate Spaces(s: string) {
    forall k | 0 <= k < |s| :: Space(s[k])
  }

  /** Stripping takes the white space off both ends, and nothing else. */
  lemma StripMeans(s: string) returns (left: string, right: string)
    ensures s == left + Strip(s) + right && Spaces(left) && Spaces(right)
    ensures Strip(s) != "" ==> !Space(Strip(s)[0]) && !Space(Strip(s)[|Strip(s)| - 1])
  {
    left := StripLeftMeans(s);
    right := StripRightMeans(StripLeft(s));
    Regroup(left, Strip(s), right);
  }

  lemma {:induction false} StripLeftMeans(s: string) returns (left: string)
    ensures s == left + StripLeft(s) && Spaces(left)
    ensures StripLeft(s) != "" ==> !Space(StripLeft(s)[0])
  {
    if s != "" && Space(s[0]) {
      var more := StripLeftMeans(s[1..]);
      left := [s[0]] + more;
      Regroup([s[0]], more, StripLeft(s));
      assert s == [s[0]] + s[1..];
    } else {
      left := "";
      assert "" + s == s;
    }
  }

  lemma {:induction false} StripRightMeans(s: string) returns (right: string)
    ensures s == StripRight(s) + right && Spaces(right)
    ensures StripRight(s) != "" ==> !Space(StripRight(s)[|StripRight(s)| - 1])
    ensures StripRight(s) != "" ==> StripRight(s)[0] == s[0]
  {
    if s != "" && Space(s[|s| - 1]) {
      var more := StripRightMeans(s[..|s| - 1]);
      right := more + [s[|s| - 1]];
      Regroup(StripRight(s), more, [s[|s| - 1]]);
      assert s == s[..|s| - 1] + [s[|s| - 1]];
    } else {
      right := "";
      assert s + "" == s;
    }
  }

  /**
    How a result text is judged: what follows "OK:" is the output of a success, what follows
    "FAIL:" the error of a failure, and any other text - or a note that there is none - is the
    error of a failure too.
   */
  lemma JudgeMeans(task: string, stdout: string, message: string)
    ensures Strip(stdout) == "OK:" + message ==> Judge(task, stdout) == Value(0, message, "")
    ensures Strip(stdout) == "FAIL:" + message ==> Judge(task, stdout) == Value(1, "", message)
    ensures Strip(stdout) == message && !("OK:" <= message) && !("FAIL:" <= message) && message != "" ==>
              Judge(task, stdout) == Value(1, "", message)
    ensures Strip(stdout) == "" ==>
              Judge(task, stdout) == Value(1, "", "scheduled task " + task + " produced no result.")
  {
    assert ("OK:" + message)[3..] == message && ("FAIL:" + message)[5..] == message;
    assert ("FAIL:" + message)[0] == 'F' && "FAIL:" <= "FAIL:" + message;
  }

  /** Polling stops at the first reply that says the scheduled task is over, or after `max` of them. */
  lemma {:induction false} PollsStopAtDone(host: nat -> Reply, from: nat, max: nat)
    ensures Polls(host, from, max) <= max
    ensures Finished(host, from, max) ==>
              Polls(host, from, max) > 0 && Done(host(from + Polls(host, from, max) - 1))
    ensures !Finished(host, from, max) ==>
              Polls(host, from, max) == max && (max > 0 ==> !Done(host(from + max - 1)))
    ensures forall i: nat | from <= i < from + Polls(host, from, max) - 1 :: !Done(host(i))
    decreases max
  {
    if max > 0 && !Done(host(from)) {
      PollsStopAtDone(host, from + 1, max - 1);
    }
  }

  /** Call number `j` is the first of the three attempts from `from` on that returned. */
  ghost predicate FirstRead(host: nat -> Reply, from: nat, j: nat) {
    from <= j < from + 3 && host(j).Returned? && forall i: nat | from <= i < j :: host(i).Raised?
  }

  /**
    The verdict, said without running the loops: success means the scheduled task was seen to finish and
    the first of three attempts to read its result that returned at all brought a text
    beginning with "OK:"; an exception gets out only when all three attempts raised.
   */
  lemma VerdictMeans(host: nat -> Reply, from: nat, task: string, max: nat)
    ensures var t := TaskOf(host, from, task, max);
            var m := from + t.polls;
            && t.polls <= max && t.attempts <= 3
            && (t.verdict.Ok() <==>
                 Finished(host, from, max) && exists j: nat :: FirstRead(host, m, j) && "OK:" <= Strip(host(j).stdout))
            && (t.verdict == Exception <==>
                 Finished(host, from, max) && forall i: nat | m <= i < m + 3 :: host(i).Raised?)
  {
    hide NotFinished, NoResult, Strip;
    PollsStopAtDone(host, from, max);
    if Finished(host, from, max) {
      ReadsFirst(host, from + Polls(host, from, max));
    }
  }

  lemma ReadsFirst(host: nat -> Reply, m: nat)
    ensures var j := m + Reads(host, m) - 1;
            if host(j).Returned? then FirstRead(host, m, j) && forall k: nat | FirstRead(host, m, k) :: k == j
            else (forall i: nat | m <= i < m + 3 :: host(i).Raised?)
  {
    assert host(m).Raised? || FirstRead(host, m, m);
  }

  /** The verdict depends only on the polls and reads: whatever answers the clean-up cannot change it. */
  lemma {:induction false} CleanUpCannotChangeVerdict(
      host: nat -> Reply, other: nat -> Reply, from: nat, task: string, max: nat)
    requires var t := TaskOf(host, from, task, max);
             forall i: nat | from <= i < from + t.polls + t.attempts :: host(i) == other(i)
    ensures TaskOf(other, from, task, max) == TaskOf(host, from, task, max)
  {
    SamePolls(host, other, from, max);
  }

  lemma {:induction false} SamePolls(host: nat -> Reply, other: nat -> Reply, from: nat, max: nat)
    requires forall i: nat | from <= i < from + Polls(host, from, max) :: host(i) == other(i)
    ensures Polls(other, from, max) == Polls(host, from, max)
    ensures Finished(other, from, max) == Finished(host, from, max)
    decreases max
  {
    if max > 0 && !Done(host(from)) {
      SamePolls(host, other, from + 1, max - 1);
    }
  }

  function Repeat(c: Command, n: nat): (r: seq<Command>)
    ensures |r| == n
  {
    if n == 0 then [] else Repeat(c, n - 1) + [c]
  }

  /** The calls made for a registered task: polls, reads, and one clean-up at the end. */
  function TaskCalls(t: Task, task: string, scriptPath: string, resultPath: string): seq<Command> {
    Repeat(Poll(task), t.polls) + Repeat(ReadOutcome(resultPath), t.attempts) + [CleanUp(task, scriptPath, resultPath)]
  }

  /** Registering a written script and, if that succeeds, seeing it through; `from` is the registering call. */
  function TaskRunOf(host: nat -> Reply, from: nat,
                     task: string, scriptPath: string, resultPath: string, maxAttempts: int): Trace
  {
    if !host(from).Ok() then Trace([Register(task, scriptPath)], Answer(host(from)))
    else
      var t := TaskOf(host, from + 1, task, if maxAttempts < 0 then 0 else maxAttempts);
      Trace([Register(task, scriptPath)] + TaskCalls(t, task, scriptPath, resultPath), t.verdict)
  }

  /**
    Cleaning up: the last call and the only one of its kind, exactly when registering succeeded.
   */
  lemma CleanedUpOnce(host: nat -> Reply, from: nat,
                      task: string, scriptPath: string, resultPath: string, maxAttempts: int)
    ensures var cs := TaskRunOf(host, from, task, scriptPath, resultPath, maxAttempts).calls;
            && |cs| > 0
            && (host(from).Ok() <==> cs[|cs| - 1].CleanUp?)
            && (forall i | 0 <= i < |cs| - 1 :: !cs[i].CleanUp?)
  {
    var t := TaskOf(host, from + 1, task, if maxAttempts < 0 then 0 else maxAttempts);
    RepeatAll(Poll(task), t.polls);
    RepeatAll(ReadOutcome(resultPath), t.attempts);
  }

  /**
    What seeing a scheduled task through must do, said about the calls themselves: register it;
    if that does not succeed, its answer is the outcome and nothing follows. Otherwise poll it up
    to the first reply that says it is over, at most `max` times; if one did, read its result up
    to the first answer, at most three times; then clean up.
   */
  ghost predicate TaskRun(host: nat -> Reply, from: nat, task: string, scriptPath: string, resultPath: string,
                          max: nat, run: Trace)
  {
    if !host(from).Ok() then run == Trace([Register(task, scriptPath)], Answer(host(from)))
    else
      exists polls: nat, attempts: nat | AreCalls(run.calls, task, scriptPath, resultPath, polls, attempts) ::
        && PolledFor(host, from + 1, max, polls, attempts > 0)
        && (attempts > 0 ==> ReadFor(host, from + 1 + polls, attempts))
        && run.outcome == if attempts > 0 then Reported(host(from + polls + attempts), task)
                          else Value(1, "", "scheduled task " + task + " did not finish within the expected time.")
  }

  /** What the last read of a result amounts to; see `JudgeMeans`. */
  function Reported(last: Reply, task: string): Outcome {
    if last.Raised? then Exception else Judge(task, last.stdout)
  }

  ghost predicate AreCalls(calls: seq<Command>, task: string, scriptPath: string, resultPath: string,
                           polls: nat, attempts: nat)
  {
    && |calls| == polls + attempts + 2
    && calls[0] == Register(task, scriptPath)
    && (forall i | 1 <= i <= polls :: calls[i] == Poll(task))
    && (forall i | polls < i <= polls + attempts :: calls[i] == ReadOutcome(resultPath))
    && calls[polls + attempts + 1] == CleanUp(task, scriptPath, resultPath)
  }

  /** A poll after which waiting goes on: it raised, it failed, or it says "Running" or nothing. */
  predicate GoesOn(r: Reply) {
    r.Raised? || r.status != 0 || Strip(r.stdout) == "Running" || Strip(r.stdout) == ""
  }

  /** Polling from call number `from` on ends after `polls` replies, with or without having seen the end. */
  ghost predicate PolledFor(host: nat -> Reply, from: nat, max: nat, polls: nat, over: bool) {
    && polls <= max
    && (over ==> polls > 0 && !GoesOn(host(from + polls - 1)))
    && (!over ==> polls == max && (max > 0 ==> GoesOn(host(from + max - 1))))
    && forall i: nat | from <= i < from + polls - 1 :: GoesOn(host(i))
  }

  ghost predicate ReadFor(host: nat -> Reply, from: nat, attempts: nat) {
    && 1 <= attempts <= 3
    && (forall i: nat | from <= i < from + attempts - 1 :: host(i).Raised?)
    && (attempts < 3 ==> host(from + attempts - 1).Returned?)
  }

  lemma PolledAsMeant(host: nat -> Reply, from: nat, max: nat)
    ensures PolledFor(host, from, max, Polls(host, from, max), Finished(host, from, max))
  {
    hide Polls, Finished, Strip;
    PollsStopAtDone(host, from, max);
  }

  lemma ReadAsMeant(host: nat -> Reply, from: nat)
    ensures ReadFor(host, from, Reads(host, from))
  {
  }

  lemma CallsAreThese(t: Task, task: string, scriptPath: string, resultPath: string)
    ensures AreCalls([Register(task, scriptPath)] + TaskCalls(t, task, scriptPath, resultPath),
                     task, scriptPath, resultPath, t.polls, t.attempts)
  {
    hide Repeat;
    RepeatAll(Poll(task), t.polls);
    RepeatAll(ReadOutcome(resultPath), t.attempts);
  }

  lemma TaskCallsMean(host: nat -> Reply, from: nat,
                      task: string, scriptPath: string, resultPath: string, maxAttempts: int)
    ensures var max := if maxAttempts < 0 then 0 else maxAttempts;
            TaskRun(host, from, task, scriptPath, resultPath, max,
                    TaskRunOf(host, from, task, scriptPath, resultPath, maxAttempts))
  {
    hide Judge, AreCalls, TaskCalls, PolledFor, ReadFor, Polls, Finished;
    var max := if maxAttempts < 0 then 0 else maxAttempts;
    if host(from).Ok() {
      var t := TaskOf(host, from + 1, task, max);
      PolledAsMeant(host, from + 1, max);
      ReadAsMeant(host, from + 1 + t.polls);
      CallsAreThese(t, task, scriptPath, resultPath);
    }
  }

  lemma {:induction false} RepeatAll(c: Command, n: nat)
    ensures forall i | 0 <= i < n :: Repeat(c, n)[i] == c
  {
    if n == 0 {
    } else {
      RepeatAll(c, n - 1);
    }
  }

  // ---- The client ----

  class WinRmClient {
    const host: nat -> Reply
    var calls: seq<Command>

    constructor (host: nat -> Reply)
      ensures this.host == host && calls == []
    {
      this.host := host;
      calls := [];
    }

    method RunDirect(command: Command) returns (outcome: Outcome)
      modifies this
      ensures calls == old(calls) + [command]
      ensures outcome == Answer(host(|old(calls)|))
    {
      outcome := Answer(host(|calls|));
      calls := calls + [command];
    }

    /** Creates the file, then appends chunk after chunk until one call does not succeed. */
    method WriteRemoteScript(content: string, path: string) returns (outcome: Outcome)
      modifies this
      ensures var run := SendAllOf(host, |old(calls)|, WritePlan(content, path));
              calls == old(calls) + run.calls && outcome == run.outcome
    {
      hide Appends, Base64.Pieces, Base64.Encode, Utf8.Encode;
      assert WritePlan(content, path)[1..] == Appends(path, Chunks(content));
      outcome := RunDirect(CreateFile(path));
      if outcome.Ok() {
        outcome := SendChunks(Base64.Encode(Utf8.Encode(content)), path);
      }
    }

    /** The chunk loop: sends piece after piece of `encoded`, up to the first failure. */
    method SendChunks(encoded: string, path: string) returns (outcome: Outcome)
      modifies this
      ensures var run := SendAllOf(host, |old(calls)|, Appends(path, Base64.Pieces(encoded, SCRIPT_CHUNK_SIZE)));
              calls == old(calls) + run.calls && outcome == run.outcome
    {
      hide Appends, Base64.Pieces;
      ghost var whole := SendAllOf(host, |calls|, Appends(path, Base64.Pieces(encoded, SCRIPT_CHUNK_SIZE)));
      var rest := encoded;
      while rest != ""
        invariant var left := SendAllOf(host, |calls|, Appends(path, Base64.Pieces(rest, SCRIPT_CHUNK_SIZE)));
                  calls + left.calls == old(calls) + whole.calls && left.outcome == whole.outcome
        decreases |rest|
      {
        var size := if |rest| < SCRIPT_CHUNK_SIZE then |rest| else SCRIPT_CHUNK_SIZE;
        NextChunk(path, rest, size);
        outcome := RunDirect(AppendChunk(path, rest[..size]));
        if !outcome.Ok() {
          return;
        }
        rest := rest[size..];
      }
      NoChunks(path);
      outcome := Value(0, "", "");
    }

    /** Writes the script to a temporary file, runs it there, then removes the file. */
    method RunLong(script: string, path: string) returns (outcome: Outcome)
      modifies this
      ensures var run := LongRunOf(host, |old(calls)|, script, path);
              calls == old(calls) + run.calls && outcome == run.outcome
    {
      hide WritePlan;
      outcome := WriteRemoteScript(script, path);
      if !outcome.Ok() {
        return;
      }
      outcome := RunDirect(RunFile(path));
      if outcome == Exception {
        return;
      }
      var removed := RunDirect(RemoveFile(path));
      if removed == Exception {
        outcome := Exception;
      }
    }

    /** Short scripts go in one command, long ones by way of a file. */
    method RunPs(script: string, path: string) returns (outcome: Outcome)
      modifies this
      ensures var full := PS_HEADER + script;
              var run := LongRunOf(host, |old(calls)|, full, path);
              if |full| <= LONG_SCRIPT_THRESHOLD then
                calls == old(calls) + [Execute(full)] && outcome == Answer(host(|old(calls)|))
              else
                && calls == old(calls) + run.calls && outcome == run.outcome
                && LongRun(host, |old(calls)|, full, path, Trace(calls[|old(calls)|..], outcome))
    {
      var full := PS_HEADER + script;
      if |full| <= LONG_SCRIPT_THRESHOLD {
        outcome := RunDirect(Execute(full));
      } else {
        hide LongRun, LongRunOf;
        LongRunOfIsLongRun(host, |calls|, full, path);
        outcome := RunLong(full, path);
        assert calls[|old(calls)|..] == LongRunOf(host, |old(calls)|, full, path).calls;
      }
    }

    /**
      Runs a script as a one-shot SYSTEM task. Once registering has succeeded, cleaning up is
      the last call on every path, is made once, and its own failure is swallowed.
     */
    method RunAsSystemTask(script: string, task: string, scriptPath: string, resultPath: string, maxAttempts: int)
      returns (outcome: Outcome)
      modifies this
      ensures var written := SendAllOf(host, |old(calls)|, WritePlan(script, scriptPath));
              var run := TaskRunOf(host, |old(calls)| + |written.calls|, task, scriptPath, resultPath, maxAttempts);
              if !written.outcome.Ok() then
                calls == old(calls) + written.calls && outcome == written.outcome
              else
                calls == old(calls) + written.calls + run.calls && outcome == run.outcome
    {
      hide WritePlan, TaskRunOf;
      outcome := WriteRemoteScript(script, scriptPath);
      if outcome.Ok() {
        outcome := RegisterAndAwait(task, scriptPath, resultPath, maxAttempts);
      }
    }

    method RegisterAndAwait(task: string, scriptPath: string, resultPath: string, maxAttempts: int)
      returns (outcome: Outcome)
      modifies this
      ensures var run := TaskRunOf(host, |old(calls)|, task, scriptPath, resultPath, maxAttempts);
              calls == old(calls) + run.calls && outcome == run.outcome
    {
      outcome := RunDirect(Register(task, scriptPath));
      if outcome.Ok() {
        outcome := AwaitTask(task, scriptPath, resultPath, maxAttempts);
      }
    }

    /** Everything after registering: wait, read the result, clean up whatever happened. */
    method AwaitTask(task: string, scriptPath: string, resultPath: string, maxAttempts: int) returns (outcome: Outcome)
      modifies this
      ensures var t := TaskOf(host, |old(calls)|, task, if maxAttempts < 0 then 0 else maxAttempts);
              calls == old(calls) + TaskCalls(t, task, scriptPath, resultPath) && outcome == t.verdict
    {
      hide NotFinished, Judge, Polls, Finished, Repeat;
      var finished := PollUntilDone(task, maxAttempts);
      if !finished {
        outcome := Value(1, "", NotFinished(task));
      } else {
        outcome := ReadResult(task, resultPath);
      }
      var _ := RunDirect(CleanUp(task, scriptPath, resultPath));
    }

    method PollUntilDone(task: string, maxAttempts: int) returns (finished: bool)
      modifies this
      ensures var max := if maxAttempts < 0 then 0 else maxAttempts;
              && finished == Finished(host, |old(calls)|, max)
              && calls == old(calls) + Repeat(Poll(task), Polls(host, |old(calls)|, max))
    {
      ghost var start := |calls|;
      var attempt := 0;
      while attempt < maxAttempts
        invariant 0 <= attempt && (attempt <= maxAttempts || attempt == 0)
        invariant calls == old(calls) + Repeat(Poll(task), attempt)
        invariant maxAttempts > 0 ==>
                    && Polls(host, start, maxAttempts) == attempt + Polls(host, start + attempt, maxAttempts - attempt)
                    && Finished(host, start, maxAttempts) == Finished(host, start + attempt, maxAttempts - attempt)
      {
        var state := RunDirect(Poll(task));
        attempt := attempt + 1;
        if state.Ok() && Strip(state.stdout) !in {"Running", ""} {
          return true;
        }
      }
      return false;
    }

    method ReadResult(task: string, resultPath: string) returns (outcome: Outcome)
      modifies this
      ensures var start := |old(calls)|;
              var attempts := Reads(host, start);
              var last := host(start + attempts - 1);
              && calls == old(calls) + Repeat(ReadOutcome(resultPath), attempts)
              && outcome == if last.Raised? then Exception else Judge(task, last.stdout)
    {
      ghost var start := |calls|;
      var attempt := 0;
      while true
        invariant 0 <= attempt <= 2
        invariant calls == old(calls) + Repeat(ReadOutcome(resultPath), attempt)
        invariant forall i: nat | start <= i < start + attempt :: host(i).Raised?
        decreases 3 - attempt
      {
        var result := RunDirect(ReadOutcome(resultPath));
        if result != Exception {
          return Judge(task, result.stdout);
        }
        if attempt == 2 {
          return Exception;
        }
        attempt := attempt + 1;
      }
    }
  }

  lemma NextChunk(path: string, rest: string, size: nat)
    requires rest != "" && size == if |rest| < SCRIPT_CHUNK_SIZE then |rest| else SCRIPT_CHUNK_SIZE
    ensures var plan := Appends(path, Base64.Pieces(rest, SCRIPT_CHUNK_SIZE));
            && plan != [] && plan[0] == AppendChunk(path, rest[..size])
            && plan[1..] == Appends(path, Base64.Pieces(rest[size..], SCRIPT_CHUNK_SIZE))
  {
    PieceStep(rest, size);
    AppendsStep(path, rest[..size], Base64.Pieces(rest[size..], SCRIPT_CHUNK_SIZE));
  }

  lemma NoChunks(path: string)
    ensures Appends(path, Base64.Pieces("", SCRIPT_CHUNK_SIZE)) == []
  {
  }

  lemma PieceStep(rest: string, size: nat)
    requires rest != "" && size == if |rest| < SCRIPT_CHUNK_SIZE then |rest| else SCRIPT_CHUNK_SIZE
    ensures Base64.Pieces(rest, SCRIPT_CHUNK_SIZE) == [rest[..size]] + Base64.Pieces(rest[size..], SCRIPT_CHUNK_SIZE)
  {
    if |rest| <= SCRIPT_CHUNK_SIZE {
      assert rest[..size] == rest && rest[size..] == "";
    }
  }
}
