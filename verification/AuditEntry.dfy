/** Audit entries, the libraries that encode and authenticate them, and their view as chain records. */
module AuditEntry {
  import opened Wrappers
  import opened ByteLines
  import opened AuditChain
  import Hex

  /** The fields of an entry that only the JSON codec looks at. */
  datatype Fields = Fields(
    agent: string, action: string, path: string, field: string, transport: string, reason: string,
    shareID: string, fromAgent: string, toAgent: string, shareAction: string, durMs: int,
    tokenID: string, requestID: string, sessionID: string, ok: bool)

  datatype LogEntry = LogEntry(timestamp: string, fields: Fields, hmac: string) {
    /** The entry as it is authenticated: everything but its own MAC. */
    function Content(): LogEntry { this.(hmac := "") }
  }

  /** JSON, `strings.TrimSpace`, and HMAC-SHA-256 under a key. */
  datatype Library = Library(
    marshal: LogEntry -> Bytes,
    unmarshal: Bytes -> Option<LogEntry>,
    trim: Bytes -> Bytes,
    mac: Bytes -> Mac)

  const OPEN_BRACE: byte := 123
  const CLOSE_BRACE: byte := 125

  /** JSON encodes every entry on one line, as an object, without loss. */
  ghost predicate LosslessJson(lib: Library) {
    && lib.trim([]) == []
    && forall e :: lib.unmarshal(lib.marshal(e)) == Some(e) && OneLineObject(lib, lib.marshal(e))
  }

  predicate OneLineObject(lib: Library, line: Bytes) {
    && |line| >= 2 && line[0] == OPEN_BRACE && line[|line| - 1] == CLOSE_BRACE
    && NEWLINE !in line
    && lib.trim(line) == line
  }

  function ComputeHMAC(lib: Library, key: Bytes, prev: Bytes, e: LogEntry): string {
    Hex.Encode(lib.mac(key)(prev, lib.marshal(e.Content())))
  }

  /** The entry as the verifier sees it. */
  function View(lib: Library, e: LogEntry): Record {
    Record(if e.hmac == "" then Absent
           else match Hex.Decode(e.hmac) case Some(d) => Digest(d) case None => Garbled,
           lib.marshal(e.Content()))
  }

  function Views(lib: Library, es: seq<LogEntry>): (log: seq<Record>)
    ensures |log| == |es|
  {
    if es == [] then [] else [View(lib, es[0])] + Views(lib, es[1..])
  }

  lemma {:induction false} ViewsAt(lib: Library, es: seq<LogEntry>, i: nat)
    requires i < |es|
    ensures Views(lib, es)[i] == View(lib, es[i])
  {
    if i > 0 { ViewsAt(lib, es[1..], i - 1); }
  }

  lemma {:induction false} ViewsConcat(lib: Library, a: seq<LogEntry>, b: seq<LogEntry>)
    ensures Views(lib, a + b) == Views(lib, a) + Views(lib, b)
  {
    if a == [] {
      assert a + b == b;
    } else {
      assert (a + b)[1..] == a[1..] + b;
      ViewsConcat(lib, a[1..], b);
    }
  }

  lemma {:induction false} MessageDeterminesContent(lib: Library, e: LogEntry, e': LogEntry)
    requires LosslessJson(lib) && View(lib, e).message == View(lib, e').message
    ensures e.Content() == e'.Content()
  {
    assert lib.unmarshal(lib.marshal(e.Content())) == Some(e.Content());
    assert lib.unmarshal(lib.marshal(e'.Content())) == Some(e'.Content());
  }

  /** Comparing decoded hex, as the loop does, is judging the record. */
  lemma {:induction false} JudgeByHex(lib: Library, key: Bytes, prev: Bytes, e: LogEntry)
    ensures var expected := lib.mac(key)(prev, lib.marshal(e.Content()));
            && Hex.Decode(ComputeHMAC(lib, key, prev, e)) == Some(expected)
            && Judge(lib.mac(key), prev, View(lib, e))
               == if e.hmac == "" then Unsealed
                  else if Hex.Decode(e.hmac) == Some(expected) then Genuine else Forged
  {
    Hex.DecodeEncode(lib.mac(key)(prev, lib.marshal(e.Content())));
  }

  lemma {:induction false} ViewsUpdate(lib: Library, es: seq<LogEntry>, i: nat, e: LogEntry)
    requires i < |es|
    ensures Views(lib, es[i := e]) == Views(lib, es)[i := View(lib, e)]
  {
    if i > 0 {
      assert es[i := e][1..] == es[1..][i - 1 := e];
      ViewsUpdate(lib, es[1..], i - 1, e);
    }
  }

  /** The verification loop of `VerifyLog`. */
  method VerifyEntries(lib: Library, key: Bytes, entries: seq<LogEntry>) returns (result: VerifyResult)
    ensures Reports(lib.mac(key), Views(lib, entries), result)
  {
    ghost var mac, log := lib.mac(key), Views(lib, entries);
    result := VerifyResult(true, |entries|, 0, 0, 0, -1);
    var prevHMAC: Bytes := [];
    for i := 0 to |entries|
      invariant ReportsUpTo(mac, log, i, result)
      invariant prevHMAC == Trusted(mac, log, i)
    {
      ReportGrows(mac, log, i, result);
      var entry := entries[i];
      ViewsAt(lib, entries, i);
      JudgeByHex(lib, key, prevHMAC, entry);
      if entry.hmac == "" {
        result := result.(legacy := result.legacy + 1);
        prevHMAC := [];
        continue;
      }
      var expected := Hex.Decode(ComputeHMAC(lib, key, prevHMAC, entry));
      var stored := Hex.Decode(entry.hmac);
      if stored.None? || expected.None? || stored.value != expected.value {
        result := result.(tampered := result.tampered + 1, valid := false);
        if result.firstBadIdx < 0 { result := result.(firstBadIdx := i); }
      } else {
        result := result.(verified := result.verified + 1);
        prevHMAC := stored.value;
      }
    }
    if result.total == 0 { result := result.(valid := true); }
  }

  /** Editing the content of entry `i` of a valid log, under its old MAC, condemns it and every later entry. */
  lemma {:induction false} EditedEntryDetected(lib: Library, key: Bytes, es: seq<LogEntry>, i: nat,
          edited: LogEntry, r: VerifyResult)
    requires LosslessJson(lib) && IdealMac(lib.mac(key))
    requires Chained(lib.mac(key), Views(lib, es)) && i < |es|
    requires edited.hmac == es[i].hmac && edited.Content() != es[i].Content()
    requires Reports(lib.mac(key), Views(lib, es[i := edited]), r)
    ensures r == BrokenReport(|es|, i)
  {
    var log := Views(lib, es);
    ViewsUpdate(lib, es, i, edited);
    ViewsAt(lib, es, i);
    if View(lib, edited).message == log[i].message { MessageDeterminesContent(lib, edited, es[i]); }
    EditedRecordDetected(lib.mac(key), log, i, View(lib, edited), r);
  }
}
