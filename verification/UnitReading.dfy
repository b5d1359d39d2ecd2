/** What the command line in the unit file says once its quoting is undone, and
    exactly which files read back. */
module UnitReading {
  import opened Outcomes
  import opened UnitFile
  import opened UnitRoundTrip

  // ----- The command line

  /** Reads on from behind an opening quote: the value up to the closing one, with
      escapes and doubled percent signs undone, and what follows it. */
  function ReadQuoted(s: string): Option<(string, string)> {
    if s == "" then None
    else if s[0] == '"' then Some(("", s[1..]))
    else if (s[0] == '\\' || s[0] == '%') && |s| > 1 then Before(s[1], ReadQuoted(s[2..]))
    else Before(s[0], ReadQuoted(s[1..]))
  }

  function Before(c: char, read: Option<(string, string)>): Option<(string, string)> {
    match read case None => None case Some(r) => Some(([c] + r.0, r.1))
  }

  /** Quoted arguments, each after one space, to the end of the line. */
  function ReadArguments(s: string): Option<seq<string>>
    decreases |s|
  {
    if s == "" then Some([])
    else if !(" \"" <= s) then None
    else
      match ReadQuoted(s[2..])
      case None => None
      case Some(r) =>
        if |r.1| >= |s| then None
        else match ReadArguments(r.1) case None => None case Some(more) => Some([r.0] + more)
  }

  /** Whatever a value contains, it reads back as itself and ends at its own quote. */
  lemma {:induction false} QuotedReads(v: string, rest: string)
    ensures ReadQuoted(Quoted(v) + "\"" + rest) == Some((v, rest))
  {
    var s := Quoted(v) + "\"" + rest;
    if v == "" {
      assert s == "\"" + rest && s[1..] == rest;
    } else {
      QuotedReads(v[1..], rest);
      var tail := Quoted(v[1..]) + "\"" + rest;
      if v[0] in {'%', '"', '\\', '$', '`'} {
        assert s[2..] == tail && s[1] == v[0];
      } else {
        assert s[1..] == tail && s[0] == v[0];
      }
      assert [v[0]] + v[1..] == v;
    }
  }

  lemma ArgumentReads(v: string, rest: string, more: seq<string>)
    requires ReadArguments(rest) == Some(more)
    ensures ReadArguments(" " + SystemdQuote(v) + rest) == Some([v] + more)
  {
    var s := " " + SystemdQuote(v) + rest;
    QuotedReads(v, rest);
    assert s[2..] == Quoted(v) + "\"" + rest;
    assert s[0] == ' ' && s[1] == '"' && s[..2] == " \"";
  }

  /** The arguments the service is to be started with. */
  function Arguments(o: Options): seq<string> {
    (if o.listen != "" then ["--listen", o.listen] else ["--host", Trim(o.host), "--port", Trim(o.port)])
    + ["--data-dir", if o.dataDir == "" then "/var/lib/watchpost" else o.dataDir]
    + (if o.secureCookies then ["--secure-cookies"] else [])
  }

  lemma FlagReads(name: string, value: string, rest: string, more: seq<string>)
    requires ReadArguments(rest) == Some(more)
    ensures ReadArguments(Flag(name, value) + rest) == Some([name] + ([value] + more))
  {
    hide SystemdQuote, ReadArguments;
    ArgumentReads(value, rest, more);
    ArgumentReads(name, " " + SystemdQuote(value) + rest, [value] + more);
    assert Flag(name, value) + rest == " " + SystemdQuote(name) + (" " + SystemdQuote(value) + rest);
  }

  lemma SwitchReads(on: bool)
    ensures ReadArguments(if on then " " + SystemdQuote("--secure-cookies") else "") ==
            Some(if on then ["--secure-cookies"] else [])
  {
    hide SystemdQuote, ReadArguments;
    NothingReads();
    if on {
      ArgumentReads("--secure-cookies", "", []);
      assert " " + SystemdQuote("--secure-cookies") + "" == " " + SystemdQuote("--secure-cookies");
      assert ["--secure-cookies"] + [] == ["--secure-cookies"];
    }
  }

  lemma NothingReads()
    ensures ReadArguments("") == Some([])
  {
  }

  /** For all options, the line that starts the service gives back exactly the
      arguments, whatever quotes, spaces, dollar or percent signs they contain. */
  lemma CommandLineExact(o: Options)
    ensures ("ExecStart=" + BINARY_PATH) <= ExecStart(o)
    ensures ReadArguments(ExecStart(o)[|"ExecStart=" + BINARY_PATH|..]) == Some(Arguments(o))
  {
    hide SystemdQuote, ReadArguments, Trim, Flag;
    var switch := if o.secureCookies then " " + SystemdQuote("--secure-cookies") else "";
    var last := if o.secureCookies then ["--secure-cookies"] else [];
    SwitchReads(o.secureCookies);
    FlagReads("--data-dir", DataDir(o), switch, last);
    var data, more := Flag("--data-dir", DataDir(o)) + switch, ["--data-dir"] + ([DataDir(o)] + last);
    FlagReads("--listen", o.listen, data, more);
    FlagReads("--port", Trim(o.port), data, more);
    FlagReads("--host", Trim(o.host), Flag("--port", Trim(o.port)) + data, ["--port"] + ([Trim(o.port)] + more));
    var address := if o.listen != "" then Flag("--listen", o.listen)
                   else Flag("--host", Trim(o.host)) + Flag("--port", Trim(o.port));
    assert ExecStart(o) == ("ExecStart=" + BINARY_PATH) + (address + data);
    assert address + data == if o.listen != "" then Flag("--listen", o.listen) + data
                             else Flag("--host", Trim(o.host)) + (Flag("--port", Trim(o.port)) + data);
    if o.listen != "" {
      assert ["--listen"] + ([o.listen] + more) == Arguments(o);
    } else {
      assert ["--host"] + ([Trim(o.host)] + (["--port"] + ([Trim(o.port)] + more))) == Arguments(o);
    }
  }

  /** The other lines that depend on options, and that the service is restarted and
      confined. */
  lemma DirectivesPresent(o: Options)
    ensures ExecStart(o) in BodyLines(o)
    ensures "ReadWritePaths=" + SystemdQuote(if o.dataDir == "" then "/var/lib/watchpost" else o.dataDir)
            in BodyLines(o)
    ensures o.envFile != "" ==> "EnvironmentFile=" + SystemdQuote(o.envFile) in BodyLines(o)
    ensures forall x | x in HARDENING :: x in BodyLines(o)
    ensures |BodyLines(o)| == if o.envFile != "" then 23 else 22
  {
    hide SystemdQuote, ExecStart;
    var a := UNIT_SECTION + START_LIMITS + SERVICE_SECTION;
    var path := ["ReadWritePaths=" + SystemdQuote(DataDir(o))];
    var env := if o.envFile != "" then ["EnvironmentFile=" + SystemdQuote(o.envFile)] else [];
    assert BodyLines(o) == a + [ExecStart(o)] + HARDENING + path + env + INSTALL_SECTION;
    assert path[0] in path && [ExecStart(o)][0] in [ExecStart(o)];
    assert o.envFile != "" ==> env[0] in env;
  }

  // ----- Exactly which files read back

  function CountWith(lines: seq<string>, prefix: string): nat {
    if lines == [] then 0
    else CountWith(lines[..|lines| - 1], prefix) + if prefix <= lines[|lines| - 1] then 1 else 0
  }

  /** The trimmed value of the last line with the prefix, or a default. */
  function LastWith(lines: seq<string>, prefix: string, default: string): string {
    if lines == [] then default
    else if prefix <= lines[|lines| - 1] then Trim(lines[|lines| - 1][|prefix|..])
    else LastWith(lines[..|lines| - 1], prefix, default)
  }

  lemma {:induction false} ManagedCounted(lines: seq<string>)
    ensures CountManaged(lines) == CountWith(lines, MANAGED)
  {
    if lines != [] { ManagedCounted(lines[..|lines| - 1]); }
  }

  /** A line carries at most one kind of metadata. */
  lemma OneKind(ln: string)
    ensures HasPrefix(ln, LISTEN) ==> !HasPrefix(ln, MODE) && !HasPrefix(ln, DATA) && !HasPrefix(ln, ENVFILE)
                                      && !HasPrefix(ln, SECURE) && !HasPrefix(ln, HEALTH)
    ensures HasPrefix(ln, MODE) ==> !HasPrefix(ln, DATA) && !HasPrefix(ln, ENVFILE) && !HasPrefix(ln, SECURE)
                                    && !HasPrefix(ln, HEALTH)
    ensures HasPrefix(ln, DATA) ==> !HasPrefix(ln, ENVFILE) && !HasPrefix(ln, SECURE) && !HasPrefix(ln, HEALTH)
    ensures HasPrefix(ln, ENVFILE) ==> !HasPrefix(ln, SECURE) && !HasPrefix(ln, HEALTH)
    ensures HasPrefix(ln, SECURE) ==> !HasPrefix(ln, HEALTH)
  {
    assert LISTEN[12] == 'l' && MODE[12] == 'l' && DATA[12] == 'd' && ENVFILE[12] == 'e' && SECURE[12] == 's'
           && HEALTH[12] == 'h' && LISTEN[18] == ':' && MODE[18] == '-';
  }

  /** Scanning counts each kind of line and keeps the last value of each. */
  lemma {:induction false} ScanExactly(lines: seq<string>)
    ensures
      Scanned(lines) ==
      Scan(CountWith(lines, LISTEN), CountWith(lines, MODE), CountWith(lines, DATA), CountWith(lines, ENVFILE),
           CountWith(lines, SECURE), CountWith(lines, HEALTH),
           Meta(LastWith(lines, LISTEN, ""), LastWith(lines, MODE, "bootstrap"), LastWith(lines, DATA, ""),
                LastWith(lines, ENVFILE, ""), LastWith(lines, SECURE, "") == "1", LastWith(lines, HEALTH, "")))
  {
    hide LISTEN, MODE, DATA, ENVFILE, SECURE, HEALTH, Trim;
    if lines != [] {
      ScanExactly(lines[..|lines| - 1]);
      OneKind(lines[|lines| - 1]);
    }
  }

  /** A file reads back if and only if it has the marker, then the one header with the
      checksum of all that follows, and below it one listener, one data directory and
      one health path, at most one of each other kind, a known mode, the known health
      path, and a listener and data directory that are not empty and free of control
      characters. What it reads back as are the values on those lines. */
  lemma ReadsExactly(content: string, hash: string -> string, m: Meta)
    ensures
      ReadUnit(content, hash) == Success(m) <==>
        var lines := Split(content);
        && |lines| >= 3 && lines[0] == MARKER && CountWith(lines, MANAGED) == 1
        && (MANAGED + VERSION) <= lines[1] && IsDigest(lines[1][|MANAGED + VERSION|..])
        && lines[1][|MANAGED + VERSION|..] == hash(Join(lines[2..]))
        && var body := lines[2..];
        && CountWith(body, LISTEN) == 1 && CountWith(body, DATA) == 1 && CountWith(body, HEALTH) == 1
        && CountWith(body, MODE) <= 1 && CountWith(body, ENVFILE) <= 1 && CountWith(body, SECURE) <= 1
        && m.listen == LastWith(body, LISTEN, "") && m.listen != "" && ControlFree(m.listen)
        && m.data == LastWith(body, DATA, "") && m.data != "" && ControlFree(m.data)
        && m.health == LastWith(body, HEALTH, "") && m.health == "/healthz"
        && m.listenMode == LastWith(body, MODE, "bootstrap")
        && (m.listenMode == "explicit" || m.listenMode == "bootstrap")
        && m.envfile == LastWith(body, ENVFILE, "") && (m.secure <==> LastWith(body, SECURE, "") == "1")
  {
    hide MARKER, LISTEN, MODE, DATA, ENVFILE, SECURE, HEALTH, Split, Join, IsDigest, ControlFree, Scanned, CountWith,
         LastWith, CountManaged;
    var lines := Split(content);
    ManagedCounted(lines);
    if |lines| >= 3 { ScanExactly(lines[2..]); }
    HeaderIsManaged(lines);
  }

  lemma HeaderIsManaged(lines: seq<string>)
    ensures |lines| > 1 && (MANAGED + VERSION) <= lines[1] ==> HasPrefix(lines[1], MANAGED)
  {
  }

  /** Why a file does not: the three answers. */
  lemma ReadFailsExactly(content: string, hash: string -> string)
    ensures
      var lines := Split(content);
      && (ReadUnit(content, hash) == Failure(NotManaged) <==> |lines| < 3 || lines[0] != MARKER)
      && (ReadUnit(content, hash) == Failure(Modified) <==>
            && |lines| >= 3 && lines[0] == MARKER && CountWith(lines, MANAGED) == 1
            && (MANAGED + VERSION) <= lines[1] && IsDigest(lines[1][|MANAGED + VERSION|..])
            && lines[1][|MANAGED + VERSION|..] != hash(Join(lines[2..])))
  {
    hide MARKER, LISTEN, MODE, DATA, ENVFILE, SECURE, HEALTH, Split, Join, IsDigest, ControlFree, Scanned, CountWith,
         CountManaged;
    ManagedCounted(Split(content));
    HeaderIsManaged(Split(content));
  }
}
