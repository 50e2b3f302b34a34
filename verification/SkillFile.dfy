/**
 * Skill files: a YAML header and a body, how the body is found again, and when
 * installing touches the disk.
 */
module SkillFile {
  import opened Wrappers

  datatype Manifest = Manifest(managedBy: string, managedHash: string, rest: seq<string>)

  /** The YAML codec of the header, and the hash of the body. */
  datatype Library = Library(marshal: Manifest -> string, unmarshal: string -> Option<Manifest>, hash: string -> string)

  const SENTINEL := "openpass"

  datatype Error = NoFrontmatter | BadYaml | HashMismatch | Unmanaged | Traversal | RenderFailed

  // ---------------------------------------------------------------- finding text

  predicate Occurs(data: string, pat: string, i: nat) { i + |pat| <= |data| && data[i..i + |pat|] == pat }

  /** The first occurrence from `i` on, or -1. */
  function IndexFrom(data: string, pat: string, i: nat): (r: int)
    requires i <= |data|
    ensures r == -1 || (i <= r && Occurs(data, pat, r))
    ensures forall j: nat | i <= j && (r == -1 || j < r) :: !Occurs(data, pat, j)
    decreases |data| - i
  {
    if Occurs(data, pat, i) then i
    else if i == |data| then -1
    else IndexFrom(data, pat, i + 1)
  }

  /** `bytes.Index` */
  function Index(data: string, pat: string): int { IndexFrom(data, pat, 0) }

  lemma {:induction false} IndexIs(data: string, pat: string, i: nat)
    requires Occurs(data, pat, i) && forall j: nat | j < i :: !Occurs(data, pat, j)
    ensures Index(data, pat) == i
  {
  }

  // ---------------------------------------------------------------- the header

  function FindFrontmatterClose(data: string): int {
    if Index(data, "\n---\n") >= 0 then Index(data, "\n---\n")
    else if Index(data, "\n---\r\n") >= 0 then Index(data, "\n---\r\n")
    else Index(data, "\n---")
  }

  /** What follows the opening line. */
  function Opened(data: string): Option<string> {
    if "---\r\n" <= data then Some(data[5..])
    else if "---\n" <= data then Some(data[4..])
    else None
  }

  predicate IsBreak(c: char) { c == '\n' || c == '\r' }

  function SkipBreaks(s: string): string {
    if s != "" && IsBreak(s[0]) then SkipBreaks(s[1..]) else s
  }

  function Manifested(lib: Library, data: string): Result<Manifest, Error> {
    match Opened(data)
    case None => Failure(NoFrontmatter)
    case Some(rest) =>
      var idx := FindFrontmatterClose(rest);
      if idx < 0 then Failure(NoFrontmatter)
      else match lib.unmarshal(rest[..idx])
        case Some(m) => Success(m)
        case None => Failure(BadYaml)
  }

  /** The body of a skill file: what follows the closing dashes, without leading line breaks. */
  function BodyOf(data: string): Result<string, Error> {
    match Opened(data)
    case None => Failure(NoFrontmatter)
    case Some(rest) =>
      var idx := FindFrontmatterClose(rest);
      if idx < 0 then Failure(NoFrontmatter) else Success(SkipBreaks(rest[idx + 4..]))
  }

  lemma {:induction false} CloseInRange(data: string)
    ensures var idx := FindFrontmatterClose(data); idx == -1 || (0 <= idx && idx + 4 <= |data|)
  {
  }

  /** `ExtractBody` */
  method ExtractBody(data: string) returns (r: Result<string, Error>)
    ensures r == BodyOf(data)
  {
    hide FindFrontmatterClose;
    if !("---\n" <= data) && !("---\r\n" <= data) { return Failure(NoFrontmatter); }
    var rest := if "---\r\n" <= data then data[5..] else data[4..];
    assert Opened(data) == Some(rest);
    var idx := FindFrontmatterClose(rest);
    if idx < 0 { return Failure(NoFrontmatter); }
    CloseInRange(rest);
    var after := idx + 4;
    while after < |rest| && (rest[after] == '\n' || rest[after] == '\r')
      invariant idx + 4 <= after <= |rest|
      invariant SkipBreaks(rest[idx + 4..]) == SkipBreaks(rest[after..])
    {
      assert rest[after..][1..] == rest[after + 1..];
      after := after + 1;
    }
    if after >= |rest| { return Success(""); }
    return Success(rest[after..]);
  }

  /** `ParseManifest` */
  method ParseManifest(lib: Library, data: string) returns (r: Result<Manifest, Error>)
    ensures r == Manifested(lib, data)
  {
    hide FindFrontmatterClose;
    if !("---\n" <= data) && !("---\r\n" <= data) { return Failure(NoFrontmatter); }
    var rest := if "---\r\n" <= data then data[5..] else data[4..];
    assert Opened(data) == Some(rest);
    var idx := FindFrontmatterClose(rest);
    if idx < 0 { return Failure(NoFrontmatter); }
    CloseInRange(rest);
    match lib.unmarshal(rest[..idx]) {
      case Some(manifest) => return Success(manifest);
      case None => return Failure(BadYaml);
    }
  }

  predicate IsManaged(lib: Library, data: string) {
    Manifested(lib, data).Success? && Manifested(lib, data).value.managedBy == SENTINEL
  }

  method FindSentinel(lib: Library, data: string) returns (r: bool)
    ensures r <==> IsManaged(lib, data)
    ensures r <==> Manifested(lib, data).Success? && Manifested(lib, data).value.managedBy == "openpass"
  {
    var manifest := ParseManifest(lib, data);
    return manifest.Success? && manifest.value.managedBy == SENTINEL;
  }

  predicate HashHolds(lib: Library, data: string) {
    && Manifested(lib, data).Success? && BodyOf(data).Success?
    && lib.hash(BodyOf(data).value) == Manifested(lib, data).value.managedHash
  }

  /** `VerifyHash` */
  method VerifyHash(lib: Library, data: string) returns (err: Option<Error>)
    ensures err.None? <==> HashHolds(lib, data)
  {
    var manifest := ParseManifest(lib, data);
    if manifest.Failure? { return Some(manifest.error); }
    var body := ExtractBody(data);
    if body.Failure? { return Some(body.error); }
    if lib.hash(body.value) != manifest.value.managedHash { return Some(HashMismatch); }
    return None;
  }

  // ---------------------------------------------------------------- rendering

  /** CRLF to LF, from the left. */
  function ToLf(s: string): string {
    if s == "" then ""
    else if |s| >= 2 && s[0] == '\r' && s[1] == '\n' then "\n" + ToLf(s[2..])
    else [s[0]] + ToLf(s[1..])
  }

  /** `Render`, from the header text on. */
  function Framed(fm: string, body: string): string { ToLf("---\n" + fm + "---\n\n" + body) }

  /**
   * A header as the encoder writes it: it ends its last line, and holds neither a
   * line of dashes nor a carriage return.
   */
  predicate PlainHeader(fm: string) {
    && fm != "" && fm[|fm| - 1] == '\n' && '\r' !in fm
    && forall i: nat | i < |fm| :: !Occurs(fm, "\n---\n", i)
  }

  /** Text without a carriage return in front is passed through. */
  lemma {:induction false} ToLfAfter(a: string, b: string)
    requires '\r' !in a
    ensures ToLf(a + b) == a + ToLf(b)
  {
    if a == "" {
      assert a + b == b;
    } else {
      assert (a + b)[1..] == a[1..] + b;
      ToLfAfter(a[1..], b);
    }
  }

  predicate HasCrLf(s: string) { |s| >= 2 && ((s[0] == '\r' && s[1] == '\n') || HasCrLf(s[1..])) }

  lemma {:induction false} ToLfShrinksIff(s: string)
    ensures |ToLf(s)| <= |s|
    ensures ToLf(s) == s <==> !HasCrLf(s)
    ensures HasCrLf(s) ==> |ToLf(s)| < |s|
    decreases |s|
  {
    if |s| >= 2 && s[0] == '\r' && s[1] == '\n' {
      ToLfShrinksIff(s[2..]);
    } else if s != "" {
      ToLfShrinksIff(s[1..]);
      assert s == [s[0]] + s[1..];
    }
  }

  lemma {:induction false} SkipShrinksIff(s: string)
    ensures |SkipBreaks(s)| <= |s|
    ensures SkipBreaks(s) == s <==> s == "" || !IsBreak(s[0])
    ensures s != "" && IsBreak(s[0]) ==> |SkipBreaks(s)| < |s|
  {
    if s != "" && IsBreak(s[0]) { SkipShrinksIff(s[1..]); }
  }

  /** Inside the header there is no closing line, and none can begin there and end behind it. */
  lemma {:induction false} NotBeforeClose(fm: string, tail: string, j: nat)
    requires PlainHeader(fm) && j < |fm| - 1
    ensures !Occurs(fm + "---\n\n" + tail, "\n---\n", j)
  {
    var rest, pat, n := fm + "---\n\n" + tail, "\n---\n", |fm| - 1;
    assert !Occurs(fm, pat, j);
    if j + 5 <= |fm| {
      assert rest[j..j + 5] == fm[j..j + 5];
    } else {
      // the header's last newline would have to be one of the dashes
      assert rest[n] == '\n' && 1 <= n - j <= 3;
      assert j + 5 <= |rest| ==> rest[j..j + 5][n - j] == rest[n];
      assert pat[n - j] == '-';
    }
  }

  /** In a framed file the closing line found is the one the frame wrote. */
  lemma {:induction false} CloseOfFrame(fm: string, tail: string)
    requires PlainHeader(fm)
    ensures FindFrontmatterClose(fm + "---\n\n" + tail) == |fm| - 1
  {
    var rest := fm + "---\n\n" + tail;
    var n := |fm| - 1;
    assert rest[n..n + 5] == "\n---\n";
    forall j: nat | j < n ensures !Occurs(rest, "\n---\n", j) { NotBeforeClose(fm, tail, j); }
    IndexIs(rest, "\n---\n", n);
  }

  /** Reading a framed file gives back its header, and its body with CRLF normalised and leading line breaks dropped. */
  lemma {:induction false} ReadFramed(lib: Library, fm: string, body: string)
    requires PlainHeader(fm)
    ensures BodyOf(Framed(fm, body)) == Success(SkipBreaks(ToLf(body)))
    ensures Manifested(lib, Framed(fm, body)) ==
      match lib.unmarshal(fm[..|fm| - 1]) case Some(m) => Success(m) case None => Failure(BadYaml)
  {
    hide ToLf, FindFrontmatterClose, SkipBreaks;
    var front := "---\n" + fm + "---\n\n";
    assert '\r' !in front;
    ToLfAfter(front, body);
    var data, tail := Framed(fm, body), ToLf(body);
    assert data == front + tail;
    var rest := fm + "---\n\n" + tail;
    assert data == "---\n" + rest && data[4..] == rest;
    CloseOfFrame(fm, tail);
    assert rest[|fm| - 1 + 4..] == "\n\n" + tail;
    assert rest[..|fm| - 1] == fm[..|fm| - 1];
    assert data[3] == '\n';
    SkipTwo(tail);
  }

  lemma {:induction false} SkipTwo(tail: string)
    ensures SkipBreaks("\n\n" + tail) == SkipBreaks(tail)
  {
    assert ("\n\n" + tail)[1..] == "\n" + tail && ("\n" + tail)[1..] == tail;
  }

  /**
   * The close is the first LF line of dashes; without one the first CRLF line;
   * without either the first dashes on a line.
   */
  lemma {:induction false} CloseIs(data: string, pat: string, i: nat)
    requires Occurs(data, pat, i) && forall j: nat | j < i :: !Occurs(data, pat, j)
    requires pat != "\n---\n" ==> forall j: nat :: !Occurs(data, "\n---\n", j)
    requires pat in {"\n---\n", "\n---\r\n", "\n---"}
    requires pat == "\n---" ==> forall j: nat :: !Occurs(data, "\n---\r\n", j)
    ensures FindFrontmatterClose(data) == i
  {
    IndexIs(data, pat, i);
  }

  /** A file with CRLF around its header reads like any other, as long as no line of dashes ends in LF alone. */
  lemma {:induction false} ReadCrlfFile(lib: Library, fm: string, body: string)
    requires fm != "" && fm[|fm| - 1] == '\n'
    requires forall j: nat :: !Occurs(fm + "---\r\n" + body, "\n---\n", j)
    requires forall j: nat | j < |fm| - 1 :: !Occurs(fm + "---\r\n" + body, "\n---\r\n", j)
    ensures var data := "---\r\n" + fm + "---\r\n" + body;
            && BodyOf(data) == Success(SkipBreaks(body))
            && Manifested(lib, data) ==
               match lib.unmarshal(fm[..|fm| - 1]) case Some(m) => Success(m) case None => Failure(BadYaml)
  {
    hide FindFrontmatterClose, SkipBreaks;
    var rest, n := fm + "---\r\n" + body, |fm| - 1;
    var data := "---\r\n" + fm + "---\r\n" + body;
    assert data == "---\r\n" + rest && data[5..] == rest && data[..5] == "---\r\n";
    assert rest[n..n + 6] == "\n---\r\n" && rest[..n] == fm[..n];
    CloseIs(rest, "\n---\r\n", n);
    assert rest[n + 4..] == "\r\n" + body;
    SkipCrlf(body);
  }

  lemma {:induction false} SkipCrlf(tail: string)
    ensures SkipBreaks("\r\n" + tail) == SkipBreaks(tail)
  {
    assert ("\r\n" + tail)[1..] == "\n" + tail && ("\n" + tail)[1..] == tail;
  }

  /** A line of dashes that ends in LF closes the header wherever it is, though a CRLF line closed it before. */
  lemma {:induction false} LfCloseWins(fm: string, middle: string, body: string)
    requires forall j: nat | j <= |fm + "---\r\n" + middle| ::
               !Occurs(fm + "---\r\n" + middle + "\n---\n" + body, "\n---\n", j) || j == |fm + "---\r\n" + middle|
    ensures BodyOf("---\r\n" + (fm + "---\r\n" + middle + "\n---\n" + body)) == Success(SkipBreaks(body))
  {
    hide FindFrontmatterClose, SkipBreaks;
    var front := fm + "---\r\n" + middle;
    var rest := front + "\n---\n" + body;
    var data := "---\r\n" + rest;
    assert data[5..] == rest && data[..5] == "---\r\n";
    assert rest[|front|..|front| + 5] == "\n---\n";
    CloseIs(rest, "\n---\n", |front|);
    assert rest[|front| + 4..] == "\n" + body;
    SkipOne(body);
  }

  lemma {:induction false} SkipOne(tail: string)
    ensures SkipBreaks("\n" + tail) == SkipBreaks(tail)
  {
    assert ("\n" + tail)[1..] == tail;
  }

  lemma {:induction false} PrefixOccurs(data: string, pat: string, k: nat, j: nat)
    requires k <= |pat|
    ensures Occurs(data, pat, j) ==> Occurs(data, pat[..k], j)
  {
    if Occurs(data, pat, j) { assert data[j..j + k] == data[j..j + |pat|][..k]; }
  }

  /** Dashes that end the file close an empty body. */
  lemma {:induction false} ReadBodylessFile(fm: string)
    requires fm != "" && fm[|fm| - 1] == '\n'
    requires forall j: nat | j < |fm| - 1 :: !Occurs(fm + "---", "\n---", j)
    ensures BodyOf("---\n" + fm + "---") == Success("")
  {
    hide FindFrontmatterClose;
    var rest, n := fm + "---", |fm| - 1;
    var data := "---\n" + fm + "---";
    assert data == "---\n" + rest && data[4..] == rest && data[..4] == "---\n" && data[3] == '\n';
    assert rest[n..n + 4] == "\n---";
    forall j: nat ensures !Occurs(rest, "\n---\n", j) && !Occurs(rest, "\n---\r\n", j) {
      PrefixOccurs(rest, "\n---\n", 4, j);
      PrefixOccurs(rest, "\n---\r\n", 4, j);
      assert "\n---\n"[..4] == "\n---" && "\n---\r\n"[..4] == "\n---";
    }
    CloseIs(rest, "\n---", n);
    assert rest[n + 4..] == "";
  }

  /** What the rendered body must be like for the file to be faithful to it. */
  predicate CleanBody(body: string) { !HasCrLf(body) && (body == "" || !IsBreak(body[0])) }

  lemma {:induction false} CleanIff(body: string)
    ensures SkipBreaks(ToLf(body)) == body <==> CleanBody(body)
  {
    ToLfShrinksIff(body);
    SkipShrinksIff(ToLf(body));
  }

  /** The body comes back exactly when it is free of CRLF and does not start with a line break. */
  lemma {:induction false} BodyRoundTripIff(lib: Library, fm: string, body: string)
    requires PlainHeader(fm)
    ensures BodyOf(Framed(fm, body)) == Success(body) <==> CleanBody(body)
  {
    ReadFramed(lib, fm, body);
    CleanIff(body);
  }

  /**
   * The encoder writes plain headers and the decoder reads them, with or without the
   * final newline; hashes do not collide.
   */
  ghost predicate Faithful(lib: Library) {
    && (forall m :: PlainHeader(lib.marshal(m)))
    && (forall m :: var fm := lib.marshal(m); lib.unmarshal(fm[..|fm| - 1]) == Some(m))
    && (forall a, b :: lib.hash(a) == lib.hash(b) ==> a == b)
  }

  /** `Render`: the header carries the hash of the body as the template produced it. */
  function Rendered(lib: Library, rest: seq<string>, body: string): string {
    Framed(lib.marshal(Manifest(SENTINEL, lib.hash(body), rest)), body)
  }

  /** A rendered file is managed, and its hash verifies exactly when its body is clean. */
  lemma {:induction false} RenderedVerifiesIff(lib: Library, rest: seq<string>, body: string)
    requires Faithful(lib)
    ensures IsManaged(lib, Rendered(lib, rest, body))
    ensures HashHolds(lib, Rendered(lib, rest, body)) <==> CleanBody(body)
  {
    hide Framed, BodyOf, Manifested, PlainHeader, SkipBreaks, ToLf, CleanBody;
    var m := Manifest(SENTINEL, lib.hash(body), rest);
    ReadFramed(lib, lib.marshal(m), body);
    CleanIff(body);
  }

  // ---------------------------------------------------------------- installing

  /** The skill file and its backup. */
  datatype Disk = Disk(target: Option<string>, backup: Option<string>)

  /** The disk of one target path. */
  class Target {
    var file: Option<string>
    var bak: Option<string>

    ghost function Files(): Disk
      reads this
    {
      Disk(file, bak)
    }

    /** `backupFile` */
    method BackupFile()
      requires file.Some?
      modifies this`bak
      ensures bak == file
    {
      bak := file;
    }

    /** `Install`: what rendering gave is a parameter. */
    method Install(lib: Library, traversal: bool, rendered: Option<string>, force: bool) returns (err: Option<Error>)
      modifies this
      ensures Files() == Installed(lib, old(Files()), traversal, rendered, force).0
      ensures err == Installed(lib, old(Files()), traversal, rendered, force).1
    {
      if traversal { return Some(Traversal); }
      if rendered.None? { return Some(RenderFailed); }
      var skillData := rendered.value;
      if file.None? {
        file := Some(skillData);
        return None;
      }
      var existing := file.value;
      var sentinel := FindSentinel(lib, existing);
      if !sentinel {
        if !force { return Some(Unmanaged); }
        file := Some(skillData);
        return None;
      }
      var current := ExtractBody(existing);
      if current.Failure? { return Some(current.error); }
      var renewed := ExtractBody(skillData);
      if renewed.Failure? { return Some(renewed.error); }
      if lib.hash(current.value) == lib.hash(renewed.value) { return None; }
      BackupFile();
      file := Some(skillData);
      return None;
    }
  }

  /** The disk after `Install`, and its error. */
  function Installed(lib: Library, d: Disk, traversal: bool, rendered: Option<string>, force: bool)
    : (Disk, Option<Error>)
  {
    if traversal then (d, Some(Traversal))
    else if rendered.None? then (d, Some(RenderFailed))
    else if d.target.None? then (d.(target := rendered), None)
    else if !IsManaged(lib, d.target.value) then
      if force then (d.(target := rendered), None) else (d, Some(Unmanaged))
    else match BodyOf(d.target.value)
      case Failure(e) => (d, Some(e))
      case Success(current) =>
        match BodyOf(rendered.value)
        case Failure(e) => (d, Some(e))
        case Success(renewed) =>
          if lib.hash(current) == lib.hash(renewed) then (d, None) else (Disk(rendered, d.target), None)
  }

  /**
   * Installing a rendering never fails on hashing, and writes exactly when there is no file, force
   * overrides an unmanaged one, or a managed one has another body.
   */
  lemma {:induction false} WritesIff(lib: Library, d: Disk, rest: seq<string>, body: string, force: bool)
    requires Faithful(lib)
    ensures var data := Rendered(lib, rest, body);
            var (d', err) := Installed(lib, d, false, Some(data), force);
            && (err.Some? <==> d.target.Some? && !IsManaged(lib, d.target.value) && !force)
            && d' == if d.target.None? then Disk(Some(data), d.backup)
                     else if !IsManaged(lib, d.target.value) then (if force then Disk(Some(data), d.backup) else d)
                     else if BodyOf(d.target.value) == Success(SkipBreaks(ToLf(body))) then d
                     else Disk(Some(data), d.target)
  {
    hide Framed, PlainHeader, SkipBreaks, ToLf, FindFrontmatterClose;
    ReadFramed(lib, lib.marshal(Manifest(SENTINEL, lib.hash(body), rest)), body);
  }

  /**
   * Whatever an Install of one body wrote or left, the next Install of the same body writes nothing,
   * whatever header it brings.
   */
  lemma {:induction false} SecondInstallWritesNothing(lib: Library, d: Disk, rest: seq<string>,
          rest': seq<string>, body: string, force: bool, force': bool)
    requires Faithful(lib)
    ensures var (d1, err) := Installed(lib, d, false, Some(Rendered(lib, rest, body)), force);
            err.None? ==> Installed(lib, d1, false, Some(Rendered(lib, rest', body)), force') == (d1, None)
  {
    hide Framed, PlainHeader, SkipBreaks, ToLf, FindFrontmatterClose, Installed, BodyOf, IsManaged;
    var (d1, err) := Installed(lib, d, false, Some(Rendered(lib, rest, body)), force);
    WritesIff(lib, d, rest, body, force);
    WritesIff(lib, d1, rest', body, force');
    RenderedVerifiesIff(lib, rest, body);
    ReadFramed(lib, lib.marshal(Manifest(SENTINEL, lib.hash(body), rest)), body);
  }

  /**
   * The text of a file that was there is still on disk afterwards, unless it was unmanaged and force
   * replaced it by something else.
   */
  lemma {:induction false} OldTextKeptIff(lib: Library, d: Disk, traversal: bool, rendered: Option<string>, force: bool)
    requires d.target.Some? && d.backup != d.target
    ensures var d' := Installed(lib, d, traversal, rendered, force).0;
            ((d'.target == d.target || d'.backup == d.target)
             <==> traversal || rendered.None? || IsManaged(lib, d.target.value) || !force || rendered == d.target)
  {
    hide IsManaged, BodyOf;
  }
}
