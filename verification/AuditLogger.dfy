/**
 * The logger over its whole life: open (with rotation), log, close, reopen.
 * Which runs leave every file verifiable is settled exactly.
 */
module AuditLogger {
  import opened Wrappers
  import opened ByteLines
  import opened AuditChain
  import opened AuditEntry
  import opened AuditFile
  import opened Runs
  import Hex

  // ---------------------------------------------------------------- what a run does

  datatype Config = Config(maxFileSize: int, maxAgeDays: int)

  /** The live log and the rotated ones, by the second of their rotation. */
  datatype Disk = Disk(active: Bytes, rotated: map<int, Bytes>)

  /** A disk together with the MAC an open logger holds in memory. */
  datatype State = State(disk: Disk, prev: Bytes)

  datatype Request = Request(entry: LogEntry, now: string)

  /** One life of a logger: the file age and clock at `New`, then the entries logged until it closes. */
  datatype Session = Session(age: int, stamp: int, requests: seq<Request>)

  /** What can go wrong while a file is rotated. */
  datatype Fault = NoFault | RenameFails | ReopenFails

  const NANOS_PER_DAY: int := 24 * 3600 * 1_000_000_000

  predicate NeedsRotation(cfg: Config, size: nat, age: int) {
    size >= cfg.maxFileSize || age >= cfg.maxAgeDays * NANOS_PER_DAY
  }

  /** A file that is due stays due while it grows and ages. */
  lemma {:induction false} DueStaysDue(cfg: Config, size: nat, age: int, size': nat, age': int)
    requires NeedsRotation(cfg, size, age) && size <= size' && age <= age'
    ensures NeedsRotation(cfg, size', age')
  {
  }

  function Opened(cfg: Config, d: Disk, age: int, stamp: int): Disk {
    if NeedsRotation(cfg, |d.active|, age) then Disk([], d.rotated[stamp := d.active]) else d
  }

  /** The disk after `RotateIfNeeded`: a rename that fails moves nothing. */
  function RotatedUnder(cfg: Config, d: Disk, age: int, stamp: int, fault: Fault): Disk {
    if fault == RenameFails then d else Opened(cfg, d, age, stamp)
  }

  predicate RotationFails(cfg: Config, d: Disk, age: int, fault: Fault) {
    NeedsRotation(cfg, |d.active|, age) && fault != NoFault
  }

  /** Names that would leave the audit directory are refused. */
  predicate AgentNameOk(name: string) {
    && '/' !in name && '\\' !in name && name != "."
    && forall i | 0 <= i < |name| - 1 :: !(name[i] == '.' && name[i + 1] == '.')
  }

  /** A name with a separator or two dots in a row is refused, and so is a single dot; single dots inside are fine. */
  lemma {:induction false} RefusedNames(a: string, b: string)
    ensures !AgentNameOk(a + "/" + b) && !AgentNameOk(a + "\\" + b) && !AgentNameOk(a + ".." + b) && !AgentNameOk(".")
    ensures a != "" && AgentNameOk(a) && AgentNameOk(b) && a[|a| - 1] != '.' && (b != "" ==> b[0] != '.') ==>
              AgentNameOk(a + "." + b)
    ensures (forall i | 0 <= i < |a| :: a[i] !in {'/', '\\', '.'}) ==> AgentNameOk(a)
  {
    assert (a + "/" + b)[|a|] == '/' && (a + "\\" + b)[|a|] == '\\';
    assert (a + ".." + b)[|a|] == '.' && (a + ".." + b)[|a| + 1] == '.';
  }

  function Line(lib: Library, e: LogEntry): Bytes { lib.marshal(e) + [NEWLINE] }

  /** The entry as it is written: stamped, and sealed when there is a key. */
  function Sealed(lib: Library, key: Bytes, prev: Bytes, req: Request): LogEntry {
    var e := if req.entry.timestamp == "" then req.entry.(timestamp := req.now) else req.entry;
    if key != [] then e.(hmac := ComputeHMAC(lib, key, prev, e)) else e
  }

  /** Sealing fills in a missing time and the MAC, over everything else and the MAC before, and changes nothing more. */
  lemma {:induction false} SealAddsTimeAndMac(lib: Library, key: Bytes, prev: Bytes, req: Request)
    ensures var e, plain := Sealed(lib, key, prev, req), LogEntry(req.entry.timestamp, req.entry.fields, "");
            && e.fields == req.entry.fields
            && (req.entry.timestamp != "" ==> e.timestamp == req.entry.timestamp)
            && (req.entry.timestamp == "" ==> e.timestamp == req.now)
            && (key == [] ==> e.hmac == req.entry.hmac)
            && (key != [] ==> e.hmac == Hex.Encode(lib.mac(key)(prev, lib.marshal(plain.(timestamp := e.timestamp)))))
  {
  }

  /** The MAC the logger holds after writing `e`. */
  function NextPrev(prev: Bytes, e: LogEntry): Bytes {
    var mac := Hex.Decode(e.hmac);
    if e.hmac != "" && mac.Some? then mac.value else prev
  }

  function Logged(lib: Library, key: Bytes, st: State, req: Request): State {
    var e := Sealed(lib, key, st.prev, req);
    State(st.disk.(active := st.disk.active + Line(lib, e)), NextPrev(st.prev, e))
  }

  function LoggedAll(lib: Library, key: Bytes, st: State, reqs: seq<Request>): State
    decreases reqs
  {
    if reqs == [] then st else LoggedAll(lib, key, Logged(lib, key, st, reqs[0]), reqs[1..])
  }

  /** The disk after one session; a logger that cannot recover its MAC does not open. */
  function AfterSession(lib: Library, key: Bytes, cfg: Config, d: Disk, s: Session): Disk {
    var d' := Opened(cfg, d, s.age, s.stamp);
    match RecoveredMac(lib, d'.active)
    case Failure(_) => d'
    case Success(prev) => LoggedAll(lib, key, State(d', prev), s.requests).disk
  }

  const NO_FILES := Disk([], map[])

  /** The disk after the first `k` sessions of a run, starting from no files. */
  function After(lib: Library, key: Bytes, cfg: Config, run: seq<Session>, k: nat): Disk
    requires k <= |run|
  {
    if k == 0 then NO_FILES else AfterSession(lib, key, cfg, After(lib, key, cfg, run, k - 1), run[k - 1])
  }

  // ---------------------------------------------------------------- the logger itself

  /** The audit directory of one agent. */
  class LogDir {
    var active: Bytes
    var rotated: map<int, Bytes>

    constructor ()
      ensures Contents() == NO_FILES
    {
      active, rotated := [], map[];
    }

    ghost function Contents(): Disk reads this { Disk(active, rotated) }
  }

  class Logger {
    const lib: Library
    const dir: LogDir
    var hmacKey: Bytes
    var prevHMAC: Bytes
    var isOpen: bool

    /** The logger before its file is opened; `New` completes it. */
    constructor (lib: Library, dir: LogDir, key: Bytes)
      ensures this.lib == lib && this.dir == dir && hmacKey == key && prevHMAC == [] && isOpen
    {
      this.lib, this.dir, hmacKey, prevHMAC, isOpen := lib, dir, key, [], true;
    }

    ghost function Memory(): State
      reads this, dir
    {
      State(dir.Contents(), prevHMAC)
    }

    /**
     * `New`: rotate if needed, then pick up the chain where the file leaves it.
     * `setup` is the key, if the directories and the key could be had.
     */
    static method New(lib: Library, dir: LogDir, cfg: Config, agentName: string, setup: Option<Bytes>,
            age: int, stamp: int, fault: Fault) returns (r: Result<Logger, Error>)
      modifies dir
      ensures !AgentNameOk(agentName) ==> r == Failure(BadAgentName) && dir.Contents() == old(dir.Contents())
      ensures AgentNameOk(agentName) && setup.None?
              ==> r == Failure(SetupFailed) && dir.Contents() == old(dir.Contents())
      ensures AgentNameOk(agentName) && setup.Some? ==>
                && dir.Contents() == old(RotatedUnder(cfg, dir.Contents(), age, stamp, fault))
                && if old(RotationFails(cfg, dir.Contents(), age, fault)) then r == Failure(RotationFailed)
                   else match RecoveredMac(lib, dir.active)
                        case Failure(_) => r == Failure(BadHex)
                        case Success(prev) =>
                          && r.Success? && fresh(r.value) && r.value.isOpen && r.value.hmacKey == setup.value
                          && r.value.lib == lib && r.value.dir == dir && r.value.prevHMAC == prev
      ensures old(|dir.active|) < cfg.maxFileSize && age < cfg.maxAgeDays * 86_400_000_000_000 ==>
                dir.active == old(dir.active) && dir.rotated == old(dir.rotated)
      ensures AgentNameOk(agentName) && setup.Some? && fault == NoFault
              && (old(|dir.active|) >= cfg.maxFileSize || age >= cfg.maxAgeDays * 86_400_000_000_000) ==>
                dir.active == [] && dir.rotated == old(dir.rotated[stamp := dir.active])
    {
      if !AgentNameOk(agentName) { return Failure(BadAgentName); }
      if setup.None? { return Failure(SetupFailed); }
      var l := new Logger(lib, dir, setup.value);
      var rotated := l.RotateIfNeeded(cfg, age, stamp, fault);
      if !rotated {
        l.Close();
        return Failure(RotationFailed);
      }
      var recovered := ReadLastHMAC(lib, dir.active);
      match recovered {
        case Failure(e) =>
          l.Close();
          return Failure(e);
        case Success(prev) =>
          l.prevHMAC := prev;
          return Success(l);
      }
    }

    method RotateIfNeeded(cfg: Config, age: int, stamp: int, fault: Fault) returns (ok: bool)
      modifies dir
      ensures dir.Contents() == old(RotatedUnder(cfg, dir.Contents(), age, stamp, fault))
      ensures ok <==> !old(RotationFails(cfg, dir.Contents(), age, fault))
      ensures ok <==> fault == NoFault
                      || (old(|dir.active|) < cfg.maxFileSize && age < cfg.maxAgeDays * 86_400_000_000_000)
      ensures fault == RenameFails ==> dir.Contents() == old(dir.Contents())
      ensures fault == ReopenFails && !ok ==> dir.active == [] && dir.rotated == old(dir.rotated[stamp := dir.active])
      ensures old(|dir.active|) < cfg.maxFileSize && age < cfg.maxAgeDays * 86_400_000_000_000 ==>
                dir.active == old(dir.active) && dir.rotated == old(dir.rotated)
      ensures fault == NoFault
              && (old(|dir.active|) >= cfg.maxFileSize || age >= cfg.maxAgeDays * 86_400_000_000_000) ==>
                dir.active == [] && dir.rotated == old(dir.rotated[stamp := dir.active])
    {
      if !NeedsRotation(cfg, |dir.active|, age) { return true; }
      if fault == RenameFails { return false; }
      dir.rotated := dir.rotated[stamp := dir.active];
      dir.active := [];
      return fault == NoFault;
    }

    /** `LogEntry`: seal, append one line, remember the new MAC. A closed logger writes nothing. */
    method LogEntry(entry: LogEntry, now: string)
      modifies this, dir
      ensures isOpen == old(isOpen) && hmacKey == old(hmacKey)
      ensures Memory() == if old(isOpen) then old(Logged(lib, hmacKey, Memory(), Request(entry, now)))
                          else old(Memory())
      ensures old(isOpen) ==> dir.active != [] && dir.active[|dir.active| - 1] == 10 && old(dir.active) <= dir.active
      ensures dir.rotated == old(dir.rotated)
    {
      if !isOpen { return; }
      var e := if entry.timestamp == "" then entry.(timestamp := now) else entry;
      if |hmacKey| > 0 {
        e := e.(hmac := ComputeHMAC(lib, hmacKey, prevHMAC, e));
      }
      var data := lib.marshal(e);
      data := data + [NEWLINE];
      dir.active := dir.active + data;
      if e.hmac != "" {
        match Hex.Decode(e.hmac) {
          case Some(prevBytes) => prevHMAC := prevBytes;
          case None =>
        }
      }
    }

    method Close()
      modifies this
      ensures !isOpen && hmacKey == [] && prevHMAC == []
    {
      hmacKey, prevHMAC, isOpen := [], [], false;
    }
  }

  // ---------------------------------------------------------------- files as lists of entries

  function Render(lib: Library, es: seq<LogEntry>): Bytes {
    if es == [] then [] else Line(lib, es[0]) + Render(lib, es[1..])
  }

  lemma {:induction false} RenderConcat(lib: Library, a: seq<LogEntry>, b: seq<LogEntry>)
    ensures Render(lib, a + b) == Render(lib, a) + Render(lib, b)
  {
    if a == [] {
      assert a + b == b;
    } else {
      assert (a + b)[1..] == a[1..] + b;
      RenderConcat(lib, a[1..], b);
    }
  }

  /** A nonempty file: earlier lines, then the last line and its newline. */
  lemma {:induction false} RenderLast(lib: Library, es: seq<LogEntry>)
    requires es != []
    ensures var n := |es| - 1;
            Render(lib, es) == Render(lib, es[..n]) + Line(lib, es[n])
  {
    var n := |es| - 1;
    var last := [es[n]];
    assert es == es[..n] + last;
    RenderConcat(lib, es[..n], last);
    assert Render(lib, last) == Line(lib, es[n]) by { assert last[1..] == []; }
  }

  lemma {:induction false} RenderEndsLine(lib: Library, es: seq<LogEntry>)
    ensures EndsLine(Render(lib, es))
  {
    if es != [] { RenderLast(lib, es); }
  }

  lemma {:induction false} RenderNewlines(lib: Library, es: seq<LogEntry>)
    requires LosslessJson(lib)
    ensures CountNewlines(Render(lib, es)) == |es|
  {
    if es != [] {
      RenderNewlines(lib, es[1..]);
      var m := lib.marshal(es[0]);
      CountNewlinesNone(m);
      CountNewlinesConcat(m, [NEWLINE]);
      CountNewlinesConcat(Line(lib, es[0]), Render(lib, es[1..]));
    }
  }

  predicate Short(lib: Library, e: LogEntry) { |lib.marshal(e)| <= MAX_LINE }

  predicate AllShort(lib: Library, es: seq<LogEntry>) { forall i | 0 <= i < |es| :: Short(lib, es[i]) }

  /** One line ahead of a text: scanned first when it is short, and the end of the scan when it is not. */
  lemma {:induction false} ScanOneLine(lib: Library, e: LogEntry, rest: Bytes)
    requires LosslessJson(lib)
    ensures ScannedEntries(lib, Line(lib, e) + rest) == if Short(lib, e) then [e] + ScannedEntries(lib, rest) else []
  {
    hide IndexOf;
    var m, data := lib.marshal(e), Line(lib, e) + rest;
    assert OneLineObject(lib, m) && lib.unmarshal(m) == Some(e);
    assert data[..|m|] == m && data[|m| + 1..] == rest;
    IndexOfIsFirst(data, NEWLINE, |m|);
    assert DropCR(m) == m;
    if Short(lib, e) {
      assert ScanLines(data) == [m] + ScanLines(rest);
      assert ([m] + ScanLines(rest))[1..] == ScanLines(rest);
      assert ParseLine(lib, m) == [e];
    }
  }

  lemma {:induction false} AllShortSplits(lib: Library, es: seq<LogEntry>)
    requires es != []
    ensures AllShort(lib, es) <==> Short(lib, es[0]) && AllShort(lib, es[1..])
  {
    assert es == [es[0]] + es[1..];
  }

  /** The scanner reads back exactly the entries before the first line that is too long. */
  lemma {:induction false} ScanRender(lib: Library, es: seq<LogEntry>)
    requires LosslessJson(lib)
    ensures ScannedEntries(lib, Render(lib, es)) <= es
    ensures ScannedEntries(lib, Render(lib, es)) == es <==> AllShort(lib, es)
  {
    if es != [] {
      hide ScannedEntries, LosslessJson, AllShort, Short, Line;
      ScanOneLine(lib, es[0], Render(lib, es[1..]));
      ScanRender(lib, es[1..]);
      AllShortSplits(lib, es);
      assert es == [es[0]] + es[1..];
    }
  }

  /** A last line without its newline is delivered like any other. */
  lemma {:induction false} ScanUnterminated(lib: Library, es: seq<LogEntry>, last: LogEntry)
    requires LosslessJson(lib) && AllShort(lib, es) && Short(lib, last)
    ensures ScannedEntries(lib, Render(lib, es) + lib.marshal(last)) == es + [last]
  {
    hide LosslessJson, ScannedEntries, Short, AllShort, Line, Render;
    var m := lib.marshal(last);
    if es == [] {
      RenderThen(lib, es, m);
      ScanBareLine(lib, last);
    } else {
      AllShortSplits(lib, es);
      ScanUnterminated(lib, es[1..], last);
      ScanOneLine(lib, es[0], Render(lib, es[1..]) + m);
      RenderThen(lib, es, m);
      assert [es[0]] + (es[1..] + [last]) == es + [last];
    }
  }

  lemma {:induction false} RenderThen(lib: Library, es: seq<LogEntry>, m: Bytes)
    ensures Render(lib, es) + m == if es == [] then m else Line(lib, es[0]) + (Render(lib, es[1..]) + m)
  {
    hide Line;
  }

  lemma {:induction false} ScanBareLine(lib: Library, e: LogEntry)
    requires LosslessJson(lib) && Short(lib, e)
    ensures ScannedEntries(lib, lib.marshal(e)) == [e]
  {
    var m := lib.marshal(e);
    assert OneLineObject(lib, m) && lib.unmarshal(m) == Some(e);
    assert DropCR(m) == m;
    assert ScanLines(m) == [m];
    ParseOne(lib, m);
  }

  /** An edit of the last entry under its old MAC is reported, though the file was saved without its final newline. */
  lemma {:induction false} EditedLastLineReported(lib: Library, key: Bytes, es: seq<LogEntry>, last: LogEntry,
          edited: LogEntry, r: VerifyResult)
    requires LosslessJson(lib) && IdealMac(lib.mac(key)) && AllShort(lib, es) && Short(lib, edited)
    requires Chained(lib.mac(key), Views(lib, es + [last]))
    requires edited.hmac == last.hmac && edited.Content() != last.Content()
    requires Reports(lib.mac(key), Views(lib, ScannedEntries(lib, Render(lib, es) + lib.marshal(edited))), r)
    ensures r == BrokenReport(|es| + 1, |es|)
  {
    ScanUnterminated(lib, es, edited);
    assert (es + [last])[|es| := edited] == es + [edited];
    EditedEntryDetected(lib, key, es + [last], |es|, edited, r);
  }

  /** Every line of the file verifies, and nothing on it escapes the verifier. */
  ghost predicate FileClean(lib: Library, key: Bytes, data: Bytes) {
    && Clean(lib.mac(key), Views(lib, ScannedEntries(lib, data)))
    && |ScannedEntries(lib, data)| == CountNewlines(data)
  }

  /** In terms of `VerifyLog`: Valid, and Total and Verified equal to the number of lines. */
  lemma {:induction false} FileCleanIffReport(lib: Library, key: Bytes, data: Bytes, r: VerifyResult)
    requires Reports(lib.mac(key), Views(lib, ScannedEntries(lib, data)), r)
    ensures FileClean(lib, key, data) <==> r == CleanReport(CountNewlines(data))
  {
    CleanIffReport(lib.mac(key), Views(lib, ScannedEntries(lib, data)), r);
  }

  ghost predicate DiskClean(lib: Library, key: Bytes, d: Disk) {
    && FileClean(lib, key, d.active)
    && forall s | s in d.rotated :: FileClean(lib, key, d.rotated[s])
  }

  lemma {:induction false} FileOfChain(lib: Library, key: Bytes, es: seq<LogEntry>)
    requires LosslessJson(lib)
    ensures FileClean(lib, key, Render(lib, es)) <==> Chained(lib.mac(key), Views(lib, es)) && AllShort(lib, es)
  {
    RenderNewlines(lib, es);
    ScanRender(lib, es);
    CleanIffChained(lib.mac(key), Views(lib, es), |es|);
  }

  // ---------------------------------------------------------------- reopening

  /** The last 4096 bytes of the file show a newline besides the final one, or the file is no longer than that. */
  predicate TailInReach(data: Bytes) {
    |data| <= 4096 || NEWLINE in data[|data| - 4096..|data| - 1]
  }

  lemma {:induction false} LastLineFound(lib: Library, z: Bytes, m: Bytes)
    requires lib.trim([]) == [] && EndsLine(z) && OneLineObject(lib, m)
    ensures LastLine(lib, SplitLines(z + m + [NEWLINE])) == m
  {
    hide SplitLines, IndexOf;
    SplitAtNewline(z + m, []);
    assert z + m + [NEWLINE] + [] == z + m + [NEWLINE];
    SplitSingleLine(m);
    SplitSingleLine([]);
    var lines := SplitLines(z + m) + [[]];
    if z == [] {
      assert z + m == m;
    } else {
      var z' := z[..|z| - 1];
      assert z + m == z' + [NEWLINE] + m;
      SplitAtNewline(z', m);
    }
    var k := |lines| - 2;
    assert lines[k] == m && lines[k + 1] == [];
    assert lines[..k + 1][..k] == lines[..k];
  }

  /** Nor does it matter whether the last line has its newline yet. */
  lemma {:induction false} BareLineFound(lib: Library, z: Bytes, m: Bytes)
    requires EndsLine(z) && OneLineObject(lib, m)
    ensures LastLine(lib, SplitLines(z + m)) == m
  {
    hide SplitLines, IndexOf;
    SplitSingleLine(m);
    if z == [] {
      assert z + m == m;
    } else {
      var z' := z[..|z| - 1];
      assert z + m == z' + [NEWLINE] + m;
      SplitAtNewline(z', m);
    }
    assert SplitLines(z + m)[|SplitLines(z + m)| - 1] == m;
  }

  /** However small the first window, a last line without its newline is found. */
  lemma {:induction false} BareTail(lib: Library, z: Bytes, m: Bytes, readSize: int)
    requires EndsLine(z) && OneLineObject(lib, m) && readSize > 0
    ensures LastLine(lib, SplitLines(TailText(z + m, readSize))) == m
    decreases |z + m| - Min(readSize, |z + m|)
  {
    hide IndexOf, SplitLines, LastLine, OneLineObject;
    var data := z + m;
    if readSize >= |data| {
      BareLineFound(lib, z, m);
    } else {
      var start := |data| - readSize;
      var buf := data[start..];
      var nl := IndexOf(buf, NEWLINE);
      if nl >= 0 {
        var cut := start + nl + 1;
        assert data[cut - 1] == buf[nl] == NEWLINE;
        NewlineInFront(lib, z, m, cut - 1);
        assert buf[nl + 1..] == z[cut..] + m;
        BareLineFound(lib, z[cut..], m);
      } else {
        BareTail(lib, z, m, 2 * readSize);
      }
    }
  }

  lemma {:induction false} NewlineInFront(lib: Library, z: Bytes, m: Bytes, k: nat)
    requires EndsLine(z) && OneLineObject(lib, m) && k < |z + m| && (z + m)[k] == NEWLINE
    ensures k < |z| && EndsLine(z[k + 1..])
  {
    assert forall j | |z| <= j < |z + m| :: (z + m)[j] in m;
  }

  /** An entry whose line lacks its newline is picked up whatever its length, so that reopening then loses no chain. */
  lemma {:induction false} UnterminatedRecovered(lib: Library, es: seq<LogEntry>, last: LogEntry)
    requires LosslessJson(lib)
    ensures RecoveredMac(lib, Render(lib, es) + lib.marshal(last))
            == if last.hmac == "" then Success([])
               else match Hex.Decode(last.hmac) case Some(mac) => Success(mac) case None => Failure(BadHex)
  {
    hide Render, SplitLines, TailText, LastLine, EndsLine;
    var m := lib.marshal(last);
    assert OneLineObject(lib, m) && lib.unmarshal(m) == Some(last);
    RenderEndsLine(lib, es);
    BareTail(lib, Render(lib, es), m, 4096);
  }

  lemma {:induction false} NoLine(lib: Library)
    requires lib.trim([]) == []
    ensures LastLine(lib, SplitLines([])) == []
  {
    SplitSingleLine([]);
    assert LastLine(lib, [[]]) == LastLine(lib, [[]][..0]);
  }

  /** What a reopened logger recovers from a file of earlier lines `front` and a last line `m`. */
  lemma {:induction false} TailOf(lib: Library, front: Bytes, m: Bytes)
    requires lib.trim([]) == [] && EndsLine(front) && OneLineObject(lib, m)
    ensures var data := front + m + [NEWLINE];
            LastLine(lib, SplitLines(TailText(data, 4096))) == if TailInReach(data) then m else []
  {
    hide IndexOf, SplitLines, LastLine;
    var data := front + m + [NEWLINE];
    if |data| <= 4096 {
      LastLineFound(lib, front, m);
    } else {
      var start := |data| - 4096;
      var buf := data[start..];
      var nl := IndexOf(buf, NEWLINE);
      assert buf[4095] == NEWLINE;
      assert data[start..|data| - 1] == buf[..4095];
      if TailInReach(data) {
        TailReached(front, m, start, nl);
        var z := front[start + nl + 1..];
        assert buf[nl + 1..] == z + m + [NEWLINE];
        LastLineFound(lib, z, m);
      } else {
        IndexOfIsFirst(buf, NEWLINE, 4095);
        assert buf[nl + 1..] == [];
        NoLine(lib);
      }
    }
  }

  lemma {:induction false} TailReached(front: Bytes, m: Bytes, start: nat, nl: int)
    requires NEWLINE !in m
    requires var data := front + m + [NEWLINE];
             && start < |data| - 1
             && NEWLINE in data[start..|data| - 1]
             && nl == IndexOf(data[start..], NEWLINE)
    ensures 0 <= nl && start + nl < |front| && front[start + nl] == NEWLINE
  {
    var data := front + m + [NEWLINE];
    var buf := data[start..];
    var k :| 0 <= k < |data| - 1 - start && data[start..|data| - 1][k] == NEWLINE;
    assert buf[k] == NEWLINE;
    IndexOfAtMost(buf, NEWLINE, k);
    assert data[start + nl] == NEWLINE;
    forall j | |front| <= j < |data| - 1 ensures data[j] != NEWLINE {
      assert data[j] == m[j - |front|];
    }
  }

  /** Reopening a chained file recovers its last MAC exactly when the tail is in reach; otherwise the chain is lost. */
  lemma {:induction false} ReopenRecovers(lib: Library, key: Bytes, es: seq<LogEntry>)
    requires LosslessJson(lib) && IdealMac(lib.mac(key))
    requires Chained(lib.mac(key), Views(lib, es)) && es != []
    ensures var data, last := Render(lib, es), ChainMac(lib.mac(key), Views(lib, es), |es|);
            && RecoveredMac(lib, data) == Success(if TailInReach(data) then last else [])
            && last != []
  {
    hide Render, SplitLines, TailText, LastLine, TailInReach, EndsLine;
    var n := |es| - 1;
    var data, front, m := Render(lib, es), Render(lib, es[..n]), lib.marshal(es[n]);
    RenderLast(lib, es);
    RenderEndsLine(lib, es[..n]);
    assert data == front + m + [NEWLINE];
    assert OneLineObject(lib, m);
    TailOf(lib, front, m);
    assert lib.unmarshal(m) == Some(es[n]);
    ViewsAt(lib, es, n);
    assert Linked(lib.mac(key), Views(lib, es), n);
  }

  /**
   * For a file longer than one window the tail is in reach exactly when its last line, newline included,
   * is at most 4095 bytes.
   */
  lemma {:induction false} TailInReachIffLastLineShort(lib: Library, es: seq<LogEntry>)
    requires LosslessJson(lib) && es != []
    ensures TailInReach(Render(lib, es)) <==>
      |Render(lib, es)| <= 4096 || |Line(lib, es[|es| - 1])| <= 4095
  {
    var n := |es| - 1;
    var data, front, m := Render(lib, es), Render(lib, es[..n]), lib.marshal(es[n]);
    RenderLast(lib, es);
    RenderEndsLine(lib, es[..n]);
    assert data == front + m + [NEWLINE];
    assert OneLineObject(lib, m);
    if |data| > 4096 {
      var start := |data| - 4096;
      if |m| + 1 <= 4095 {
        assert data[start..|data| - 1][|front| - 1 - start] == front[|front| - 1] == NEWLINE;
      } else {
        assert data[start..|data| - 1] == m[start - |front|..];
      }
    }
  }

  // ---------------------------------------------------------------- one session

  /** The entries a session writes, in order, when it starts with `prev` in memory. */
  function SealedAll(lib: Library, key: Bytes, prev: Bytes, reqs: seq<Request>): (es: seq<LogEntry>)
    ensures |es| == |reqs|
    decreases reqs
  {
    if reqs == [] then [] else
      var e := Sealed(lib, key, prev, reqs[0]);
      [e] + SealedAll(lib, key, NextPrev(prev, e), reqs[1..])
  }

  lemma {:induction false} LoggedAllAppends(lib: Library, key: Bytes, st: State, reqs: seq<Request>)
    ensures LoggedAll(lib, key, st, reqs).disk
            == st.disk.(active := st.disk.active + Render(lib, SealedAll(lib, key, st.prev, reqs)))
    decreases reqs
  {
    if reqs == [] {
      assert st.disk.active + [] == st.disk.active;
    } else {
      LoggedAllAppends(lib, key, Logged(lib, key, st, reqs[0]), reqs[1..]);
      var es := SealedAll(lib, key, st.prev, reqs);
      assert es[1..] == SealedAll(lib, key, NextPrev(st.prev, es[0]), reqs[1..]);
      assert st.disk.active + Line(lib, es[0]) + Render(lib, es[1..]) == st.disk.active + Render(lib, es);
    }
  }

  lemma {:induction false} SealedDecodes(lib: Library, key: Bytes, prev: Bytes, req: Request)
    requires IdealMac(lib.mac(key)) && key != []
    ensures var e := Sealed(lib, key, prev, req);
            var d := lib.mac(key)(prev, View(lib, e).message);
            View(lib, e).stored == Digest(d) && NextPrev(prev, e) == d
  {
    var e := Sealed(lib, key, prev, req);
    var e0 := if req.entry.timestamp == "" then req.entry.(timestamp := req.now) else req.entry;
    assert e.Content() == e0.Content();
    var d := lib.mac(key)(prev, lib.marshal(e0.Content()));
    Hex.DecodeEncode(d);
    assert d != [];
  }

  /** Entries sealed from the MAC a chain ends with extend that chain. */
  lemma {:induction false} SealedExtendsChain(lib: Library, key: Bytes, log: seq<Record>, prev: Bytes,
          reqs: seq<Request>)
    requires IdealMac(lib.mac(key)) && key != [] && Chained(lib.mac(key), log)
    requires prev == ChainMac(lib.mac(key), log, |log|)
    ensures Chained(lib.mac(key), log + Views(lib, SealedAll(lib, key, prev, reqs)))
    decreases reqs
  {
    var sealed := Views(lib, SealedAll(lib, key, prev, reqs));
    if reqs == [] {
      assert log + sealed == log;
    } else {
      var e := Sealed(lib, key, prev, reqs[0]);
      var r := View(lib, e);
      SealedDecodes(lib, key, prev, reqs[0]);
      ChainExtends(lib.mac(key), log, r);
      var more := SealedAll(lib, key, NextPrev(prev, e), reqs[1..]);
      ViewsConcat(lib, [e], more);
      assert Views(lib, [e]) == [r];
      assert log + sealed == log + [r] + Views(lib, more);
      SealedExtendsChain(lib, key, log + [r], NextPrev(prev, e), reqs[1..]);
    }
  }

  /** Entries sealed from a forgotten MAC break the chain. */
  lemma {:induction false} SealedFromNothingBreaks(lib: Library, key: Bytes, base: seq<Record>, reqs: seq<Request>)
    requires IdealMac(lib.mac(key)) && key != []
    requires base != [] && reqs != []
    ensures !Chained(lib.mac(key), base + Views(lib, SealedAll(lib, key, [], reqs)))
  {
    var mac, n := lib.mac(key), |base|;
    var log := base + Views(lib, SealedAll(lib, key, [], reqs));
    SealedDecodes(lib, key, [], reqs[0]);
    ViewsAt(lib, SealedAll(lib, key, [], reqs), 0);
    assert log[n] == View(lib, Sealed(lib, key, [], reqs[0]));
    assert ChainMac(mac, log, n) != [];
    if mac(ChainMac(mac, log, n), log[n].message) == mac([], log[n].message) {
      MacInjective(mac, ChainMac(mac, log, n), log[n].message, [], log[n].message);
    }
    assert !Linked(mac, log, n);
  }

  /** ... and the report names the first of them. */
  lemma {:induction false} LostChainReported(lib: Library, key: Bytes, base: seq<Record>, reqs: seq<Request>,
          r: VerifyResult)
    requires IdealMac(lib.mac(key)) && key != []
    requires base != [] && reqs != [] && Chained(lib.mac(key), base)
    requires Reports(lib.mac(key), base + Views(lib, SealedAll(lib, key, [], reqs)), r)
    ensures !r.valid && r.firstBadIdx == |base|
  {
    var mac, n := lib.mac(key), |base|;
    var log := base + Views(lib, SealedAll(lib, key, [], reqs));
    SealedDecodes(lib, key, [], reqs[0]);
    ViewsAt(lib, SealedAll(lib, key, [], reqs), 0);
    assert log[n] == View(lib, Sealed(lib, key, [], reqs[0]));
    CleanIffChained(mac, base, n);
    SharedPrefix(mac, base, log, n);
    assert Trusted(mac, log, n) == ChainMac(mac, base, n) != [];
    if mac(ChainMac(mac, base, n), log[n].message) == mac([], log[n].message) {
      MacInjective(mac, ChainMac(mac, base, n), log[n].message, [], log[n].message);
    }
    assert VerdictAt(mac, log, n) == Forged;
    assert forall i | 0 <= i < n :: VerdictAt(mac, log, i) == Genuine;
  }

  /** What a caller can check before a session: it rotates, or the tail of the file is in reach. */
  predicate OpensSafely(cfg: Config, d: Disk, s: Session) {
    NeedsRotation(cfg, |d.active|, s.age) || TailInReach(d.active)
  }

  /** The entries a session from disk `d` writes; none when its logger does not open. */
  function Written(lib: Library, key: Bytes, cfg: Config, d: Disk, s: Session): seq<LogEntry> {
    match RecoveredMac(lib, Opened(cfg, d, s.age, s.stamp).active)
    case Failure(_) => []
    case Success(prev) => SealedAll(lib, key, prev, s.requests)
  }

  lemma {:induction false} SessionAppends(lib: Library, key: Bytes, cfg: Config, d: Disk, s: Session)
    ensures var d' := Opened(cfg, d, s.age, s.stamp);
            AfterSession(lib, key, cfg, d, s) == d'.(active := d'.active + Render(lib, Written(lib, key, cfg, d, s)))
  {
    var d' := Opened(cfg, d, s.age, s.stamp);
    match RecoveredMac(lib, d'.active)
    case Failure(_) => assert d'.active + [] == d'.active;
    case Success(prev) => LoggedAllAppends(lib, key, State(d', prev), s.requests);
  }

  /** A session writes nothing, or opens safely and writes only lines the scanner can take. */
  predicate SafeSession(lib: Library, key: Bytes, cfg: Config, d: Disk, s: Session) {
    s.requests == [] || (OpensSafely(cfg, d, s) && AllShort(lib, Written(lib, key, cfg, d, s)))
  }

  /** The live file holds `es` as one chain, and every file verifies. */
  ghost predicate Keeps(lib: Library, key: Bytes, d: Disk, es: seq<LogEntry>) {
    && d.active == Render(lib, es)
    && Chained(lib.mac(key), Views(lib, es))
    && DiskClean(lib, key, d)
  }

  lemma {:induction false} NoFilesKept(lib: Library, key: Bytes)
    requires LosslessJson(lib)
    ensures Keeps(lib, key, NO_FILES, [])
  {
    FileOfChain(lib, key, []);
  }

  /** The entries on the live file once a session has opened: all of them, or none after a rotation. */
  function Continued(cfg: Config, d: Disk, s: Session, es: seq<LogEntry>): seq<LogEntry> {
    if NeedsRotation(cfg, |d.active|, s.age) then [] else es
  }

  lemma {:induction false} OpenedKeeps(lib: Library, key: Bytes, cfg: Config, d: Disk, s: Session, es: seq<LogEntry>)
    requires LosslessJson(lib) && Keeps(lib, key, d, es)
    ensures Keeps(lib, key, Opened(cfg, d, s.age, s.stamp), Continued(cfg, d, s, es))
  {
    NoFilesKept(lib, key);
  }

  /** The chain after a session: unbroken exactly when nothing was written or the session opened safely. */
  lemma {:induction false} SessionChain(lib: Library, key: Bytes, cfg: Config, d: Disk, s: Session, es: seq<LogEntry>)
    requires LosslessJson(lib) && IdealMac(lib.mac(key)) && key != []
    requires Keeps(lib, key, d, es)
    ensures |Written(lib, key, cfg, d, s)| == |s.requests|
    ensures Chained(lib.mac(key), Views(lib, Continued(cfg, d, s, es) + Written(lib, key, cfg, d, s)))
       <==> s.requests == [] || OpensSafely(cfg, d, s)
  {
    var base := Continued(cfg, d, s, es);
    var log := Views(lib, base);
    OpenedKeeps(lib, key, cfg, d, s, es);
    ViewsConcat(lib, base, Written(lib, key, cfg, d, s));
    if base == [] {
      SealedExtendsChain(lib, key, [], [], s.requests);
    } else {
      ReopenRecovers(lib, key, base);
      if TailInReach(d.active) {
        SealedExtendsChain(lib, key, log, ChainMac(lib.mac(key), log, |log|), s.requests);
      } else if s.requests == [] {
        assert base + [] == base;
      } else {
        SealedFromNothingBreaks(lib, key, log, s.requests);
      }
    }
  }

  /** One session from a kept disk: the disk stays clean exactly when the session is safe. */
  lemma {:induction false} SessionKeepsIffSafe(lib: Library, key: Bytes, cfg: Config, d: Disk, s: Session,
          es: seq<LogEntry>)
    requires LosslessJson(lib) && IdealMac(lib.mac(key)) && key != []
    requires Keeps(lib, key, d, es)
    ensures var d' := AfterSession(lib, key, cfg, d, s);
            var es' := Continued(cfg, d, s, es) + Written(lib, key, cfg, d, s);
            && d'.active == Render(lib, es')
            && (SafeSession(lib, key, cfg, d, s) ==> Keeps(lib, key, d', es'))
            && (!SafeSession(lib, key, cfg, d, s) ==> !DiskClean(lib, key, d'))
  {
    var base, added := Continued(cfg, d, s, es), Written(lib, key, cfg, d, s);
    OpenedKeeps(lib, key, cfg, d, s, es);
    SessionAppends(lib, key, cfg, d, s);
    RenderConcat(lib, base, added);
    SessionChain(lib, key, cfg, d, s, es);
    FileOfChain(lib, key, base);
    FileOfChain(lib, key, base + added);
    AllShortConcat(lib, base, added);
  }

  lemma {:induction false} AllShortConcat(lib: Library, a: seq<LogEntry>, b: seq<LogEntry>)
    ensures AllShort(lib, a + b) <==> AllShort(lib, a) && AllShort(lib, b)
  {
    forall i | 0 <= i < |b| ensures (a + b)[|a| + i] == b[i] {}
    forall i | 0 <= i < |a| ensures (a + b)[i] == a[i] {}
    if AllShort(lib, a + b) {
      forall i | 0 <= i < |a| ensures Short(lib, a[i]) { assert Short(lib, (a + b)[i]); }
      forall i | 0 <= i < |b| ensures Short(lib, b[i]) { assert Short(lib, (a + b)[|a| + i]); }
    }
  }

  // ---------------------------------------------------------------- whole runs

  predicate SafeAt(lib: Library, key: Bytes, cfg: Config, run: seq<Session>, k: nat) {
    k < |run| && SafeSession(lib, key, cfg, After(lib, key, cfg, run, k), run[k])
  }

  ghost predicate CleanAt(lib: Library, key: Bytes, cfg: Config, run: seq<Session>, k: nat) {
    k <= |run| && DiskClean(lib, key, After(lib, key, cfg, run, k))
  }

  ghost predicate KeptAt(lib: Library, key: Bytes, cfg: Config, run: seq<Session>, k: nat) {
    k <= |run| && exists es :: Keeps(lib, key, After(lib, key, cfg, run, k), es)
  }

  lemma {:induction false} StepKeepsIffSafe(lib: Library, key: Bytes, cfg: Config, run: seq<Session>, k: nat)
    requires LosslessJson(lib) && IdealMac(lib.mac(key)) && key != []
    requires k < |run| && KeptAt(lib, key, cfg, run, k)
    ensures SafeAt(lib, key, cfg, run, k) ==> KeptAt(lib, key, cfg, run, k + 1)
    ensures !SafeAt(lib, key, cfg, run, k) ==> !CleanAt(lib, key, cfg, run, k + 1)
  {
    var d, s := After(lib, key, cfg, run, k), run[k];
    var es :| Keeps(lib, key, d, es);
    SessionKeepsIffSafe(lib, key, cfg, d, s, es);
    assert After(lib, key, cfg, run, k + 1) == AfterSession(lib, key, cfg, d, s);
  }

  lemma {:induction false} RunStartsKept(lib: Library, key: Bytes, cfg: Config, run: seq<Session>)
    requires LosslessJson(lib)
    ensures KeptAt(lib, key, cfg, run, 0)
  {
    NoFilesKept(lib, key);
    assert Keeps(lib, key, After(lib, key, cfg, run, 0), []);
  }

  lemma {:induction false} SafeRunIsClean(lib: Library, key: Bytes, cfg: Config, run: seq<Session>)
    requires LosslessJson(lib) && IdealMac(lib.mac(key)) && key != []
    requires forall k: nat | k < |run| :: SafeAt(lib, key, cfg, run, k)
    ensures forall k: nat | k <= |run| :: CleanAt(lib, key, cfg, run, k)
  {
    var n := |run|;
    ghost var inv := (k: nat) => KeptAt(lib, key, cfg, run, k);
    ghost var ok := (k: nat) => SafeAt(lib, key, cfg, run, k);
    RunStartsKept(lib, key, cfg, run);
    forall k: nat, j: nat | j == k + 1 <= n && inv(k) && ok(k) ensures inv(j) {
      StepKeepsIffSafe(lib, key, cfg, run, k);
    }
    CarryAlong(inv, ok, n);
    forall k: nat | k <= n ensures CleanAt(lib, key, cfg, run, k) { assert inv(k); }
  }

  lemma {:induction false} CleanRunIsSafe(lib: Library, key: Bytes, cfg: Config, run: seq<Session>)
    requires LosslessJson(lib) && IdealMac(lib.mac(key)) && key != []
    requires forall k: nat | k <= |run| :: CleanAt(lib, key, cfg, run, k)
    ensures forall k: nat | k < |run| :: SafeAt(lib, key, cfg, run, k)
  {
    var n := |run|;
    ghost var inv := (k: nat) => KeptAt(lib, key, cfg, run, k);
    ghost var ok := (k: nat) => SafeAt(lib, key, cfg, run, k);
    ghost var clean := (k: nat) => CleanAt(lib, key, cfg, run, k);
    RunStartsKept(lib, key, cfg, run);
    forall k: nat, j: nat | j == k + 1 <= n && inv(k)
      ensures ok(k) ==> inv(j)
      ensures !ok(k) ==> !clean(j)
    {
      StepKeepsIffSafe(lib, key, cfg, run, k);
    }
    NoBadStep(inv, ok, clean, n);
    forall k: nat | k < n ensures SafeAt(lib, key, cfg, run, k) { assert ok(k); }
  }

  /**
   * Over any run of sessions with one key, every file verifies completely at
   * every point of the run if and only if every session was safe.
   */
  lemma {:induction false} RunCleanIffSessionsSafe(lib: Library, key: Bytes, cfg: Config, run: seq<Session>)
    requires LosslessJson(lib) && IdealMac(lib.mac(key)) && key != []
    ensures (forall k: nat | k <= |run| :: CleanAt(lib, key, cfg, run, k))
       <==> (forall k: nat | k < |run| :: SafeAt(lib, key, cfg, run, k))
  {
    if forall k: nat | k <= |run| :: CleanAt(lib, key, cfg, run, k) { CleanRunIsSafe(lib, key, cfg, run); }
    if forall k: nat | k < |run| :: SafeAt(lib, key, cfg, run, k) { SafeRunIsClean(lib, key, cfg, run); }
  }

  // ---------------------------------------------------------------- short lines

  /** Every line is at most 4095 bytes, newline included. */
  predicate Compact(lib: Library, es: seq<LogEntry>) { forall i | 0 <= i < |es| :: |Line(lib, es[i])| <= 4095 }

  predicate CompactAt(lib: Library, key: Bytes, cfg: Config, run: seq<Session>, k: nat) {
    k < |run| && Compact(lib, Written(lib, key, cfg, After(lib, key, cfg, run, k), run[k]))
  }

  ghost predicate KeptCompactAt(lib: Library, key: Bytes, cfg: Config, run: seq<Session>, k: nat) {
    k <= |run| && exists es :: Keeps(lib, key, After(lib, key, cfg, run, k), es) && Compact(lib, es)
  }

  lemma {:induction false} CompactSession(lib: Library, key: Bytes, cfg: Config, d: Disk, s: Session, es: seq<LogEntry>)
    requires LosslessJson(lib) && IdealMac(lib.mac(key)) && key != []
    requires Keeps(lib, key, d, es) && Compact(lib, es) && Compact(lib, Written(lib, key, cfg, d, s))
    ensures var es' := Continued(cfg, d, s, es) + Written(lib, key, cfg, d, s);
            Keeps(lib, key, AfterSession(lib, key, cfg, d, s), es') && Compact(lib, es')
  {
    hide Render, Chained, DiskClean, AfterSession, Written, TailInReach;
    if es != [] { TailInReachIffLastLineShort(lib, es); } else { EmptyInReach(lib); }
    CompactIsShort(lib, Written(lib, key, cfg, d, s));
    SessionKeepsIffSafe(lib, key, cfg, d, s, es);
  }

  lemma {:induction false} EmptyInReach(lib: Library)
    ensures TailInReach(Render(lib, []))
  {
  }

  lemma {:induction false} CompactIsShort(lib: Library, es: seq<LogEntry>)
    requires Compact(lib, es)
    ensures AllShort(lib, es)
  {
  }

  /** The promised case: as long as every line is at most 4095 bytes, every file of every run verifies. */
  lemma {:induction false} CompactRunClean(lib: Library, key: Bytes, cfg: Config, run: seq<Session>)
    requires LosslessJson(lib) && IdealMac(lib.mac(key)) && key != []
    requires forall k: nat | k < |run| :: CompactAt(lib, key, cfg, run, k)
    ensures forall k: nat | k <= |run| :: CleanAt(lib, key, cfg, run, k)
  {
    hide Keeps, Compact, CleanAt, Written, Continued, AfterSession, LosslessJson, IdealMac;
    var n := |run|;
    ghost var inv := (k: nat) => KeptCompactAt(lib, key, cfg, run, k);
    ghost var ok := (k: nat) => CompactAt(lib, key, cfg, run, k);
    CompactRunStarts(lib, key, cfg, run);
    forall k: nat, j: nat | j == k + 1 <= n && inv(k) && ok(k) ensures inv(j) {
      var d := After(lib, key, cfg, run, k);
      var es :| Keeps(lib, key, d, es) && Compact(lib, es);
      CompactSession(lib, key, cfg, d, run[k], es);
      assert After(lib, key, cfg, run, j) == AfterSession(lib, key, cfg, d, run[k]);
    }
    CarryAlong(inv, ok, n);
    forall k: nat | k <= n ensures CleanAt(lib, key, cfg, run, k) {
      assert inv(k);
      CompactIsClean(lib, key, cfg, run, k);
    }
  }

  lemma {:induction false} CompactRunStarts(lib: Library, key: Bytes, cfg: Config, run: seq<Session>)
    requires LosslessJson(lib)
    ensures KeptCompactAt(lib, key, cfg, run, 0)
  {
    NoFilesKept(lib, key);
    assert Keeps(lib, key, After(lib, key, cfg, run, 0), []) && Compact(lib, []);
  }

  lemma {:induction false} CompactIsClean(lib: Library, key: Bytes, cfg: Config, run: seq<Session>, k: nat)
    requires KeptCompactAt(lib, key, cfg, run, k)
    ensures CleanAt(lib, key, cfg, run, k)
  {
    hide DiskClean;
  }

  /** The failing family at its smallest: one entry whose line overflows the window, a reopening, any further entry. */
  lemma {:induction false} LongLineSpoilsNextSession(lib: Library, key: Bytes, cfg: Config, first: Session,
          second: Session)
    requires LosslessJson(lib) && IdealMac(lib.mac(key)) && key != []
    requires |first.requests| == 1 && second.requests != []
    requires var e := Sealed(lib, key, [], first.requests[0]);
             && 4096 < |Line(lib, e)| <= MAX_LINE
             && !NeedsRotation(cfg, |Line(lib, e)|, second.age)
    ensures CleanAt(lib, key, cfg, [first, second], 1)
    ensures !CleanAt(lib, key, cfg, [first, second], 2)
  {
    var run := [first, second];
    var e := Sealed(lib, key, [], first.requests[0]);
    NoFilesKept(lib, key);
    var d0 := Opened(cfg, NO_FILES, first.age, first.stamp);
    assert d0.active == [];
    assert SealedAll(lib, key, [], first.requests) == [e] + SealedAll(lib, key, NextPrev([], e), first.requests[1..]);
    assert Written(lib, key, cfg, NO_FILES, first) == [e];
    SessionKeepsIffSafe(lib, key, cfg, NO_FILES, first, []);
    var d1 := After(lib, key, cfg, run, 1);
    assert d1 == AfterSession(lib, key, cfg, After(lib, key, cfg, run, 0), first);
    assert Render(lib, [e]) == Line(lib, e) + Render(lib, [e][1..]);
    TailInReachIffLastLineShort(lib, [e]);
    SessionKeepsIffSafe(lib, key, cfg, d1, second, [e]);
    assert After(lib, key, cfg, run, 2) == AfterSession(lib, key, cfg, d1, second);
  }
}
