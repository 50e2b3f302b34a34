/**
 * Reading an audit file: parsing its lines, the window-doubling reader of its
 * last entries, the recovery of its last MAC, and verifying it.
 */
module AuditFile {
  import opened Wrappers
  import opened ByteLines
  import opened Collections
  import opened AuditChain
  import opened AuditEntry
  import Hex

  // ---------------------------------------------------------------- parsing lines

  /** The entry on one line: none when the line is blank or malformed. */
  function ParseLine(lib: Library, line: Bytes): seq<LogEntry> {
    var text := lib.trim(line);
    if text == [] then []
    else match lib.unmarshal(text) case Some(e) => [e] case None => []
  }

  function ParseLines(lib: Library, lines: seq<Bytes>): seq<LogEntry> {
    if lines == [] then [] else ParseLine(lib, lines[0]) + ParseLines(lib, lines[1..])
  }

  lemma {:induction false} ParseLinesConcat(lib: Library, a: seq<Bytes>, b: seq<Bytes>)
    ensures ParseLines(lib, a + b) == ParseLines(lib, a) + ParseLines(lib, b)
  {
    if a == [] {
      assert a + b == b;
    } else {
      assert (a + b)[1..] == a[1..] + b;
      ParseLinesConcat(lib, a[1..], b);
    }
  }

  /** The parsing loop shared by `parseTailEntries` and `VerifyLog`: trim, skip blank and malformed lines. */
  method ParseEach(lib: Library, lines: seq<Bytes>) returns (entries: seq<LogEntry>)
    ensures entries == ParseLines(lib, lines)
  {
    entries := [];
    for i := 0 to |lines|
      invariant entries == ParseLines(lib, lines[..i])
    {
      ParseLinesConcat(lib, lines[..i], [lines[i]]);
      assert lines[..i + 1] == lines[..i] + [lines[i]];
      assert ParseLines(lib, [lines[i]]) == ParseLine(lib, lines[i]) + ParseLines(lib, [lines[i]][1..]);
      var line := lib.trim(lines[i]);
      if line != [] {
        match lib.unmarshal(line) {
          case Some(e) => entries := entries + [e];
          case None =>
        }
      }
    }
    assert lines[..|lines|] == lines;
  }

  /** Every entry of a file: the reference the tail reader is measured against. */
  function WholeFile(lib: Library, data: Bytes): seq<LogEntry> {
    ParseLines(lib, SplitLines(data))
  }

  lemma {:induction false} WholeFileAtNewline(lib: Library, a: Bytes, b: Bytes)
    ensures WholeFile(lib, a + [NEWLINE] + b) == WholeFile(lib, a) + WholeFile(lib, b)
  {
    SplitAtNewline(a, b);
    ParseLinesConcat(lib, SplitLines(a), SplitLines(b));
  }

  lemma {:induction false} WholeFileEmpty(lib: Library)
    requires lib.trim([]) == []
    ensures WholeFile(lib, []) == []
  {
    assert SplitLines([]) == [[]];
    assert ParseLines(lib, [[]]) == ParseLine(lib, []) + ParseLines(lib, [[]][1..]);
  }

  /** A file may be cut, without losing an entry, before or after a newline. */
  lemma {:induction false} CutAtLine(lib: Library, data: Bytes, k: nat)
    requires lib.trim([]) == []
    requires k <= |data|
    requires EndsLine(data[..k]) || (k < |data| && data[k] == NEWLINE)
    ensures WholeFile(lib, data) == WholeFile(lib, data[..k]) + WholeFile(lib, data[k..])
  {
    WholeFileEmpty(lib);
    if k == 0 {
      assert data[k..] == data;
    } else if data[k - 1] == NEWLINE {
      assert data == data[..k - 1] + [NEWLINE] + data[k..];
      assert data[..k] == data[..k - 1] + [NEWLINE] + [];
      WholeFileAtNewline(lib, data[..k - 1], data[k..]);
      WholeFileAtNewline(lib, data[..k - 1], []);
    } else {
      assert data == data[..k] + [NEWLINE] + data[k + 1..];
      assert data[k..] == [] + [NEWLINE] + data[k + 1..];
      WholeFileAtNewline(lib, data[..k], data[k + 1..]);
      WholeFileAtNewline(lib, [], data[k + 1..]);
    }
  }

  lemma {:induction false} SkipNewline(lib: Library, data: Bytes)
    requires lib.trim([]) == []
    requires data != [] && data[0] == NEWLINE
    ensures WholeFile(lib, data) == WholeFile(lib, data[1..])
  {
    assert data == [] + [NEWLINE] + data[1..];
    WholeFileAtNewline(lib, [], data[1..]);
    WholeFileEmpty(lib);
  }

  // ---------------------------------------------------------------- the tail reader

  lemma {:induction false} LastNOfSuffix<T>(whole: seq<T>, window: seq<T>, n: nat)
    requires |window| <= |whole| && window == whole[|whole| - |window|..]
    requires n <= |window| || window == whole
    ensures LastN(window, n) == LastN(whole, n)
  {
  }

  lemma {:induction false} LastNIs<T>(s: seq<T>, n: nat)
    ensures LastN(s, n) == if |s| > n then s[|s| - n..] else s
  {
  }

  function Min(a: int, b: int): int { if a < b then a else b }

  /** Where the first whole line of a window starts; -1 when there is none. */
  function FirstLineStart(data: Bytes, atStart: bool): (idx: int)
    ensures -1 <= idx <= |data|
    ensures idx >= 0 ==> idx == 0 || data[idx - 1] == NEWLINE
    ensures idx == 0 ==> atStart || data == [] || data[0] == NEWLINE
    ensures idx < 0 ==> !atStart
  {
    if !atStart && |data| > 0 && data[0] != NEWLINE then
      var nl := IndexOf(data, NEWLINE);
      if nl >= 0 then nl + 1 else -1
    else 0
  }

  /** The entries from the first whole line of a window on. */
  function TailEntries(lib: Library, data: Bytes, atStart: bool): seq<LogEntry> {
    var idx := FirstLineStart(data, atStart);
    if idx < 0 then [] else WholeFile(lib, data[idx..])
  }

  /** `parseTailEntries`: the entries on the complete lines of a window. */
  method ParseTailEntries(lib: Library, data: Bytes, atStart: bool) returns (entries: seq<LogEntry>)
    requires lib.trim([]) == []
    ensures entries == TailEntries(lib, data, atStart)
  {
    entries := [];
    var idx := FirstLineStart(data, atStart);
    if idx < 0 { return; }
    ghost var from := idx;
    while idx < |data| && data[idx] == NEWLINE
      invariant from <= idx <= |data|
      invariant WholeFile(lib, data[from..]) == WholeFile(lib, data[idx..])
    {
      SkipNewline(lib, data[idx..]);
      assert data[idx..][1..] == data[idx + 1..];
      idx := idx + 1;
    }
    if idx >= |data| {
      WholeFileEmpty(lib);
      return;
    }
    entries := ParseEach(lib, SplitLines(data[idx..]));
  }

  /** The entries of a window are the last entries of the file. */
  lemma {:induction false} WindowIsSuffix(lib: Library, data: Bytes, start: nat)
    requires lib.trim([]) == []
    requires start <= |data|
    ensures var window := TailEntries(lib, data[start..], start == 0);
            var whole := WholeFile(lib, data);
            && |window| <= |whole| && window == whole[|whole| - |window|..]
            && (start == 0 ==> window == whole)
  {
    var idx := FirstLineStart(data[start..], start == 0);
    if idx >= 0 {
      var k := start + idx;
      assert data[start..][idx..] == data[k..];
      if idx > 0 {
        assert data[k - 1] == data[start..][idx - 1];
      } else if start > 0 && data[start..] != [] {
        assert data[k] == data[start..][0];
      }
      if k == |data| {
        assert data[k..] == [] && data[..k] == data;
        WholeFileEmpty(lib);
      } else {
        CutAtLine(lib, data, k);
      }
      assert start == 0 ==> data[k..] == data;
    }
  }

  /** From the first line that starts inside it on, a window misses nothing. */
  lemma {:induction false} WindowHoldsWholeLines(lib: Library, data: Bytes, start: nat, k: nat)
    requires lib.trim([]) == [] && start < k <= |data| && data[k - 1] == NEWLINE
    ensures var window, lines := TailEntries(lib, data[start..], start == 0), WholeFile(lib, data[k..]);
            |lines| <= |window| && window[|window| - |lines|..] == lines
  {
    var buf := data[start..];
    var idx := FirstLineStart(buf, start == 0);
    LineStartsBy(buf, start == 0, k - start);
    hide WholeFile, IndexOf, FirstLineStart;
    var tail := buf[idx..];
    var cut := k - start - idx;
    assert tail[cut..] == data[k..];
    if cut > 0 {
      assert tail[cut - 1] == data[k - 1];
      assert EndsLine(tail[..cut]);
    }
    CutAtLine(lib, tail, cut);
  }

  lemma {:induction false} LineStartsBy(buf: Bytes, atStart: bool, k: nat)
    requires 0 < k <= |buf| && buf[k - 1] == NEWLINE
    ensures 0 <= FirstLineStart(buf, atStart) <= k
  {
    IndexOfAtMost(buf, NEWLINE, k - 1);
  }

  /** `lastNEntries` on a file's bytes: read a window from the end, doubling it until it holds `n` entries. */
  method LastNEntries(lib: Library, data: Bytes, n: nat) returns (entries: seq<LogEntry>)
    requires lib.trim([]) == []
    ensures entries == LastN(WholeFile(lib, data), n)
  {
    hide WholeFile, TailEntries, LastN;
    var fileSize := |data|;
    if fileSize == 0 {
      WholeFileEmpty(lib);
      LastNIs<LogEntry>([], n);
      return [];
    }
    var readSize := 4096;
    while true
      invariant readSize > 0
      decreases fileSize - Min(readSize, fileSize)
    {
      if readSize > fileSize { readSize := fileSize; }
      var start := fileSize - readSize;
      entries := ParseTailEntries(lib, data[start..], start == 0);
      WindowIsSuffix(lib, data, start);
      if |entries| >= n || readSize >= fileSize {
        LastNOfSuffix(WholeFile(lib, data), entries, n);
        LastNIs(entries, n);
        if |entries| > n { entries := entries[|entries| - n..]; }
        return;
      }
      readSize := readSize * 2;
    }
  }

  // ---------------------------------------------------------------- the last MAC

  /** The text in which `readLastHMAC` looks for the last line, starting from a window of `readSize` bytes. */
  function TailText(data: Bytes, readSize: int): (text: Bytes)
    requires readSize > 0
    decreases |data| - Min(readSize, |data|)
  {
    if readSize >= |data| then data
    else
      var buf := data[|data| - readSize..];
      var nl := IndexOf(buf, NEWLINE);
      if nl >= 0 then buf[nl + 1..] else TailText(data, 2 * readSize)
  }

  /** The last line that is not blank; empty when there is none. */
  function LastLine(lib: Library, lines: seq<Bytes>): Bytes {
    if lines == [] then []
    else if lib.trim(lines[|lines| - 1]) != [] then lines[|lines| - 1]
    else LastLine(lib, lines[..|lines| - 1])
  }

  datatype Error = BadHex | EmptyKey | BadAgentName | SetupFailed | RotationFailed

  /** The MAC a reopened logger continues from: that of the last line `TailText` shows. */
  function RecoveredMac(lib: Library, data: Bytes): Result<Bytes, Error> {
    if data == [] then Success([]) else
      var line := LastLine(lib, SplitLines(TailText(data, 4096)));
      if line == [] then Success([]) else
        match lib.unmarshal(line)
        case None => Success([])
        case Some(e) =>
          if e.hmac == "" then Success([])
          else match Hex.Decode(e.hmac) case Some(mac) => Success(mac) case None => Failure(BadHex)
  }

  /** The backward scan of `readLastHMAC` for a line that is not blank. */
  method ScanBack(lib: Library, lines: seq<Bytes>) returns (line: Bytes)
    ensures line == LastLine(lib, lines)
  {
    var i := |lines| - 1;
    assert lines[..|lines|] == lines;
    while i >= 0
      invariant -1 <= i < |lines|
      invariant LastLine(lib, lines) == LastLine(lib, lines[..i + 1])
    {
      assert lines[..i + 1][..i] == lines[..i];
      if lib.trim(lines[i]) != [] { return lines[i]; }
      i := i - 1;
    }
    return [];
  }

  /** `readLastHMAC` on a file's bytes. */
  method ReadLastHMAC(lib: Library, data: Bytes) returns (r: Result<Bytes, Error>)
    ensures r == RecoveredMac(lib, data)
  {
    var fileSize := |data|;
    if fileSize == 0 { return Success([]); }
    var readSize := 4096;
    var lastLine: Bytes;
    while true
      invariant readSize > 0
      invariant TailText(data, readSize) == TailText(data, 4096)
      decreases fileSize - Min(readSize, fileSize)
    {
      if readSize > fileSize { readSize := fileSize; }
      var start := fileSize - readSize;
      var buf := data[start..];
      var idx := 0;
      if start > 0 {
        var nl := IndexOf(buf, NEWLINE);
        if nl >= 0 {
          idx := nl + 1;
        } else {
          readSize := readSize * 2;
          continue;
        }
      }
      assert buf[idx..] == TailText(data, 4096);
      lastLine := ScanBack(lib, SplitLines(buf[idx..]));
      break;
    }
    if lastLine == [] { return Success([]); }
    match lib.unmarshal(lastLine) {
      case None => return Success([]);
      case Some(lastEntry) =>
        if lastEntry.hmac == "" { return Success([]); }
        match Hex.Decode(lastEntry.hmac) {
          case Some(mac) => return Success(mac);
          case None => return Failure(BadHex);
        }
    }
  }

  // ---------------------------------------------------------------- verifying a file

  /** The longest line `bufio.Scanner` delivers with its default buffer. */
  const MAX_LINE := 65535

  function DropCR(line: Bytes): Bytes {
    if line != [] && line[|line| - 1] == CARRIAGE_RETURN then line[..|line| - 1] else line
  }

  /** The lines `bufio.Scanner` delivers: it stops for good at the first line that is too long. */
  function ScanLines(data: Bytes): seq<Bytes> {
    if data == [] then [] else
      var i := IndexOf(data, NEWLINE);
      if i < 0 then (if |data| <= MAX_LINE then [DropCR(data)] else [])
      else if i > MAX_LINE then []
      else [DropCR(data[..i])] + ScanLines(data[i + 1..])
  }

  function ScannedEntries(lib: Library, data: Bytes): seq<LogEntry> {
    ParseLines(lib, ScanLines(data))
  }

  /** Trimming takes a carriage return off the end of a line, and nothing is left of nothing. */
  ghost predicate TrimsReturns(lib: Library) {
    lib.trim([]) == [] && forall line :: lib.trim(line + [13]) == lib.trim(line)
  }

  lemma {:induction false} ParseDropCR(lib: Library, line: Bytes)
    requires TrimsReturns(lib)
    ensures ParseLine(lib, DropCR(line)) == ParseLine(lib, line)
  {
    if DropCR(line) != line { assert line == DropCR(line) + [CARRIAGE_RETURN]; }
  }

  /** The first `n` lines are short enough for the scanner, and the next one, if any, is not. */
  predicate StopsAt(lines: seq<Bytes>, n: nat) {
    && n <= |lines|
    && (forall i | 0 <= i < n :: |lines[i]| <= 65535)
    && (n < |lines| ==> |lines[n]| > 65535)
  }

  /** Of a list of lines, what the scanner passes on. */
  function PassedOn(lines: seq<Bytes>): seq<Bytes> {
    if lines == [] || |lines[0]| > MAX_LINE then [] else [DropCR(lines[0])] + PassedOn(lines[1..])
  }

  lemma {:induction false} ParseStep(lib: Library, line: Bytes, rest: seq<Bytes>)
    ensures ParseLines(lib, [line] + rest) == ParseLine(lib, line) + ParseLines(lib, rest)
  {
    assert ([line] + rest)[1..] == rest;
  }

  lemma {:induction false} ScanIsPassedOn(lib: Library, data: Bytes)
    requires TrimsReturns(lib)
    ensures ParseLines(lib, ScanLines(data)) == ParseLines(lib, PassedOn(SplitLines(data)))
    decreases |data|
  {
    hide ParseLines, ParseLine, TrimsReturns;
    var i := IndexOf(data, NEWLINE);
    if i < 0 {
      PassedOnOne(lib, data);
    } else if i <= MAX_LINE {
      var rest := data[i + 1..];
      ScanIsPassedOn(lib, rest);
      ParseStep(lib, DropCR(data[..i]), ScanLines(rest));
      ParseStep(lib, DropCR(data[..i]), PassedOn(SplitLines(rest)));
      PassedOnStep(data[..i], SplitLines(rest));
    }
  }

  lemma {:induction false} PassedOnStep(line: Bytes, rest: seq<Bytes>)
    ensures PassedOn([line] + rest) == if |line| > MAX_LINE then [] else [DropCR(line)] + PassedOn(rest)
  {
    assert ([line] + rest)[1..] == rest;
  }

  lemma {:induction false} PassedOnOne(lib: Library, data: Bytes)
    requires TrimsReturns(lib) && IndexOf(data, NEWLINE) < 0
    ensures ParseLines(lib, ScanLines(data)) == ParseLines(lib, PassedOn([data]))
  {
    assert [data][1..] == [];
    if data == [] { ParseStep(lib, [], []); }
  }

  lemma {:induction false} PassedOnToFirstLong(lib: Library, lines: seq<Bytes>, n: nat)
    requires TrimsReturns(lib) && StopsAt(lines, n)
    ensures ParseLines(lib, PassedOn(lines)) == ParseLines(lib, lines[..n])
    decreases n
  {
    if n > 0 {
      hide ParseLines, ParseLine, DropCR, TrimsReturns;
      var line, rest := lines[0], lines[1..];
      assert lines[..n] == [line] + rest[..n - 1];
      PassedOnToFirstLong(lib, rest, n - 1);
      ParseStep(lib, line, rest[..n - 1]);
      ParseStep(lib, DropCR(line), PassedOn(rest));
      ParseDropCR(lib, line);
    }
  }

  /** Whether or not the text ends in a newline, the scanner delivers the entries before the first overlong line. */
  lemma {:induction false} ScannedToFirstLong(lib: Library, data: Bytes, n: nat)
    requires TrimsReturns(lib) && StopsAt(SplitLines(data), n)
    ensures ScannedEntries(lib, data) == ParseLines(lib, SplitLines(data)[..n])
  {
    hide SplitLines, ParseLines, ScanLines, PassedOn, StopsAt, TrimsReturns;
    ScanIsPassedOn(lib, data);
    PassedOnToFirstLong(lib, SplitLines(data), n);
  }

  lemma {:induction false} ParseOne(lib: Library, line: Bytes)
    ensures ParseLines(lib, [line]) == ParseLine(lib, line)
  {
    assert [line][1..] == [];
  }

  /** When no line is too long, that is every entry of the file. */
  lemma {:induction false} ScannedIsWhole(lib: Library, data: Bytes)
    requires TrimsReturns(lib) && forall i | 0 <= i < |SplitLines(data)| :: |SplitLines(data)[i]| <= 65535
    ensures ScannedEntries(lib, data) == WholeFile(lib, data)
  {
    var lines := SplitLines(data);
    ScannedToFirstLong(lib, data, |lines|);
    assert lines[..|lines|] == lines;
  }

  /** `VerifyLog` on a file's bytes. */
  method VerifyLog(lib: Library, data: Bytes, key: Bytes) returns (r: Result<VerifyResult, Error>)
    ensures key == [] ==> r == Failure(EmptyKey)
    ensures key != [] ==> r.Success? && Reports(lib.mac(key), Views(lib, ScannedEntries(lib, data)), r.value)
  {
    if key == [] { return Failure(EmptyKey); }
    var entries := ParseEach(lib, ScanLines(data));
    var result := VerifyEntries(lib, key, entries);
    return Success(result);
  }
}
