/** The unit file reads back as it was written, and edits are detected. */
module UnitRoundTrip {
  import opened Outcomes
  import opened UnitFile

  // ----- Lines

  lemma {:induction false} JoinSplit(s: string)
    ensures Join(Split(s)) == s
  {
    if s != "" {
      JoinSplit(s[1..]);
      var rest := Split(s[1..]);
      if s[0] == '\n' {
        assert ([""] + rest)[1..] == rest;
        assert s == "\n" + s[1..];
      } else {
        var all := [[s[0]] + rest[0]] + rest[1..];
        if |rest| > 1 {
          assert all[1..] == rest[1..];
          assert Join(all) == [s[0]] + (rest[0] + "\n" + Join(rest[1..]));
        }
        assert s == [s[0]] + s[1..];
      }
    }
  }

  lemma {:induction false} SplitLine(line: string, rest: string)
    requires OneLine(line)
    ensures Split(line + "\n" + rest) == [line] + Split(rest)
  {
    var s := line + "\n" + rest;
    if line == "" {
      assert s[1..] == rest;
    } else {
      assert s[1..] == line[1..] + "\n" + rest;
      SplitLine(line[1..], rest);
      assert [s[0]] + line[1..] == line;
    }
  }

  lemma SplitEmpty()
    ensures Split("") == [""]
  {
  }

  lemma {:induction false} SplitText(lines: seq<string>)
    requires forall i | 0 <= i < |lines| :: OneLine(lines[i])
    ensures Split(Text(lines)) == lines + [""]
  {
    hide Split;
    if lines == [] {
      SplitEmpty();
    } else {
      SplitLine(lines[0], Text(lines[1..]));
      SplitText(lines[1..]);
      assert lines == [lines[0]] + lines[1..];
    }
  }

  lemma SplitHeaded(content: string, digest: string)
    requires IsDigest(digest)
    ensures Split(Headed(content, digest)) == [MARKER, MANAGED + VERSION + digest] + Split(content)
  {
    hide MARKER, MANAGED, VERSION, OneLine, Split;
    HeaderOneLine(digest);
    MarkerOneLine();
    var second := MANAGED + VERSION + digest;
    SplitLine(second, content);
    SplitLine(MARKER, second + "\n" + content);
    assert Headed(content, digest) == MARKER + "\n" + (second + "\n" + content);
  }

  lemma MarkerOneLine()
    ensures OneLine(MARKER)
  {
    assert |MARKER| == 45;
    forall i | 0 <= i < |MARKER| ensures MARKER[i] != '\n' {
      if i < 22 { assert MARKER[i] in "# Managed by watchpost. "; }
    }
  }

  lemma HeaderOneLine(digest: string)
    requires IsDigest(digest)
    ensures OneLine(MANAGED + VERSION + digest)
  {
    var s := MANAGED + VERSION + digest;
    forall i | 0 <= i < |s| ensures s[i] != '\n' {
      if i >= |MANAGED + VERSION| { assert s[i] == digest[i - |MANAGED + VERSION|]; }
    }
  }

  // ----- Trimming

  lemma {:induction false} TrimLeftShape(s: string)
    ensures var t := TrimLeft(s); t != "" ==> !IsSpace(t[0]) && s != "" && t[|t| - 1] == s[|s| - 1]
    ensures ControlFree(s) ==> ControlFree(TrimLeft(s))
  {
    if s != "" && IsSpace(s[0]) { TrimLeftShape(s[1..]); }
  }

  lemma {:induction false} TrimRightShape(s: string)
    ensures var t := TrimRight(s); t != "" ==> !IsSpace(t[|t| - 1]) && s != "" && t[0] == s[0]
    ensures ControlFree(s) ==> ControlFree(TrimRight(s))
  {
    if s != "" && IsSpace(s[|s| - 1]) { TrimRightShape(s[..|s| - 1]); }
  }

  predicate Snug(s: string) { s == "" || (!IsSpace(s[0]) && !IsSpace(s[|s| - 1])) }

  /** Trimming leaves no space at either end, and a snug value alone. */
  lemma TrimSnug(s: string)
    ensures Snug(Trim(s)) && (Snug(s) ==> Trim(s) == s)
    ensures ControlFree(s) ==> ControlFree(Trim(s))
  {
    TrimLeftShape(s);
    TrimRightShape(TrimLeft(s));
  }

  // ----- Printed lines

  /** Values that survive printing: no surrounding space, no control character. */
  predicate Plain(s: string) { Snug(s) && ControlFree(s) }

  /** Options the installer would record as given. */
  predicate Recordable(o: Options) {
    && Plain(o.listen) && Plain(o.dataDir) && Plain(o.envFile) && ControlFree(o.host) && ControlFree(o.port)
  }

  lemma ListenerPlain(o: Options)
    requires Recordable(o)
    ensures Plain(Listener(o)) && Listener(o) != "" && ControlFree(Trim(o.host)) && ControlFree(Trim(o.port))
  {
    TrimSnug(o.host);
    TrimSnug(o.port);
    var h, p, l := Trim(o.host), Trim(o.port), Listener(o);
    if o.listen == "" {
      var head := if ':' in h then "[" + h + "]:" else h + ":";
      assert l == head + p;
      assert l[|l| - 1] == if p == "" then ':' else p[|p| - 1];
      assert l[0] == if ':' in h then '[' else if h == "" then ':' else h[0];
    }
  }

  lemma {:induction false} QuotedOneLine(s: string)
    requires ControlFree(s)
    ensures OneLine(Quoted(s)) && OneLine(SystemdQuote(s))
  {
    if s != "" { QuotedOneLine(s[1..]); }
  }

  lemma OneLineConcat(a: string, b: string)
    requires OneLine(a) && OneLine(b)
    ensures OneLine(a + b)
  {
  }

  /** A line that the reader passes over. */
  predicate Passed(s: string) { s == "" || s[0] != '#' }

  lemma FlagOneLine(name: string, value: string)
    requires ControlFree(name) && ControlFree(value)
    ensures OneLine(Flag(name, value))
  {
    QuotedOneLine(name);
    QuotedOneLine(value);
    OneLineConcat(" " + SystemdQuote(name), " " + SystemdQuote(value));
    assert Flag(name, value) == " " + SystemdQuote(name) + (" " + SystemdQuote(value));
  }

  /** A first part that fixes how the line starts, and more. */
  lemma PassedConcat(a: string, b: string, c: string, d: string)
    requires OneLine(a) && OneLine(b) && OneLine(c) && OneLine(d) && a != "" && Passed(a)
    ensures OneLine(a + b + c + d) && Passed(a + b + c + d)
  {
    OneLineConcat(a, b);
    OneLineConcat(a + b, c);
    OneLineConcat(a + b + c, d);
    assert (a + b + c + d)[0] == a[0];
  }

  lemma FlagNames()
    ensures ControlFree("--listen") && ControlFree("--host") && ControlFree("--port") && ControlFree("--data-dir")
    ensures ControlFree("--secure-cookies")
  {
  }

  lemma AddressOneLine(o: Options)
    requires Recordable(o)
    ensures OneLine(if o.listen != "" then Flag("--listen", o.listen)
                    else Flag("--host", Trim(o.host)) + Flag("--port", Trim(o.port)))
  {
    ListenerPlain(o);
    FlagNames();
    FlagOneLine("--listen", o.listen);
    FlagOneLine("--host", Trim(o.host));
    FlagOneLine("--port", Trim(o.port));
    OneLineConcat(Flag("--host", Trim(o.host)), Flag("--port", Trim(o.port)));
  }

  lemma DataDirPlain(o: Options)
    requires Recordable(o)
    ensures Plain(DataDir(o)) && DataDir(o) != ""
  {
  }

  lemma ProgramPassed()
    ensures OneLine("ExecStart=" + BINARY_PATH) && Passed("ExecStart=" + BINARY_PATH)
  {
  }

  lemma CookieFlagOneLine()
    ensures OneLine(" " + SystemdQuote("--secure-cookies"))
  {
    FlagNames();
    QuotedOneLine("--secure-cookies");
    OneLineConcat(" ", SystemdQuote("--secure-cookies"));
  }

  lemma ExecStartPassed(o: Options)
    requires Recordable(o)
    ensures OneLine(ExecStart(o)) && Passed(ExecStart(o))
  {
    FlagNames();
    hide Flag, SystemdQuote, Quoted, BINARY_PATH, DataDir, Trim, OneLine, Passed, ControlFree;
    ProgramPassed();
    AddressOneLine(o);
    DataDirPlain(o);
    FlagOneLine("--data-dir", DataDir(o));
    CookieFlagOneLine();
    assert OneLine("") by { EmptyOneLine(); }
    PassedConcat("ExecStart=" + BINARY_PATH,
                 if o.listen != "" then Flag("--listen", o.listen)
                 else Flag("--host", Trim(o.host)) + Flag("--port", Trim(o.port)),
                 Flag("--data-dir", DataDir(o)),
                 if o.secureCookies then " " + SystemdQuote("--secure-cookies") else "");
  }

  lemma EmptyOneLine()
    ensures OneLine("") && Passed("")
  {
  }

  predicate Inert(lines: seq<string>) { forall i | 0 <= i < |lines| :: OneLine(lines[i]) && Passed(lines[i]) }

  lemma InertConcat(a: seq<string>, b: seq<string>)
    requires Inert(a) && Inert(b)
    ensures Inert(a + b)
  {
  }

  /** A directive whose value is quoted. */
  lemma QuotedDirective(name: string, value: string)
    requires OneLine(name) && name != "" && name[0] != '#' && ControlFree(value)
    ensures Inert([name + SystemdQuote(value)])
  {
    QuotedOneLine(value);
    OneLineConcat(name, SystemdQuote(value));
  }

  lemma DescriptionOneLine()
    ensures OneLine("Description=Watchpost monitoring service")
  {
    var s := "Description=Watchpost monitoring service";
    forall i | 0 <= i < 22 ensures s[i] != '\n' {}
    forall i | 22 <= i < |s| ensures s[i] != '\n' {}
  }

  lemma UnitSectionInert()
    ensures Inert(UNIT_SECTION)
  {
    DescriptionOneLine();
  }

  lemma StartLimitsInert()
    ensures Inert(START_LIMITS)
  {
  }

  lemma ServiceSectionInert()
    ensures Inert(SERVICE_SECTION)
  {
  }

  lemma HardeningInert()
    ensures Inert(HARDENING)
  {
  }

  lemma InstallSectionInert()
    ensures Inert(INSTALL_SECTION)
  {
  }

  lemma InertParts(a: seq<string>, b: seq<string>, c: seq<string>, d: seq<string>, e: seq<string>, f: seq<string>,
                   g: seq<string>, h: seq<string>)
    requires Inert(a) && Inert(b) && Inert(c) && Inert(d) && Inert(e) && Inert(f) && Inert(g) && Inert(h)
    ensures Inert(a + b + c + d + e + f + g + h)
  {
    InertConcat(a, b);
    InertConcat(a + b, c);
    InertConcat(a + b + c, d);
    InertConcat(a + b + c + d, e);
    InertConcat(a + b + c + d + e, f);
    InertConcat(a + b + c + d + e + f, g);
    InertConcat(a + b + c + d + e + f + g, h);
  }

  /** No directive is mistaken for metadata or breaks its line. */
  lemma BodyInert(o: Options)
    requires Recordable(o)
    ensures Inert(BodyLines(o))
  {
    hide UNIT_SECTION, START_LIMITS, SERVICE_SECTION, ExecStart, HARDENING, INSTALL_SECTION, DataDir, SystemdQuote;
    UnitSectionInert();
    StartLimitsInert();
    ServiceSectionInert();
    ExecStartPassed(o);
    HardeningInert();
    DataDirPlain(o);
    QuotedDirective("ReadWritePaths=", DataDir(o));
    QuotedDirective("EnvironmentFile=", o.envFile);
    InstallSectionInert();
    InertParts(UNIT_SECTION, START_LIMITS, SERVICE_SECTION, [ExecStart(o)], HARDENING,
               ["ReadWritePaths=" + SystemdQuote(DataDir(o))],
               if o.envFile != "" then ["EnvironmentFile=" + SystemdQuote(o.envFile)] else [], INSTALL_SECTION);
  }

  // ----- Metadata

  lemma PassedUntagged(ln: string)
    requires Passed(ln)
    ensures !HasPrefix(ln, MANAGED) && forall s: Scan :: Record(s, ln) == s
  {
    assert MANAGED[0] == '#' && LISTEN[0] == '#' && MODE[0] == '#' && DATA[0] == '#' && ENVFILE[0] == '#'
           && SECURE[0] == '#' && HEALTH[0] == '#';
  }

  lemma {:induction false} InertScans(lines: seq<string>, body: seq<string>)
    requires Inert(body)
    ensures Scanned(lines + body) == Scanned(lines) && CountManaged(lines + body) == CountManaged(lines)
    decreases |body|
  {
    if body == [] {
      assert lines + body == lines;
    } else {
      var front := body[..|body| - 1];
      InertScans(lines, front);
      assert (lines + body)[..|lines + body| - 1] == lines + front;
      PassedUntagged(body[|body| - 1]);
    }
  }

  /** The kinds of metadata line, told apart by their characters from the 13th on. */
  lemma PrefixesDiffer(v: string)
    ensures HasPrefix(LISTEN + v, LISTEN) && HasPrefix(MODE + v, MODE) && HasPrefix(DATA + v, DATA)
    ensures HasPrefix(ENVFILE + v, ENVFILE) && HasPrefix(SECURE + v, SECURE) && HasPrefix(HEALTH + v, HEALTH)
    ensures !HasPrefix(MODE + v, LISTEN)
    ensures !HasPrefix(DATA + v, LISTEN) && !HasPrefix(DATA + v, MODE)
    ensures !HasPrefix(ENVFILE + v, LISTEN) && !HasPrefix(ENVFILE + v, MODE) && !HasPrefix(ENVFILE + v, DATA)
    ensures !HasPrefix(SECURE + v, LISTEN) && !HasPrefix(SECURE + v, MODE) && !HasPrefix(SECURE + v, DATA)
    ensures !HasPrefix(SECURE + v, ENVFILE)
    ensures !HasPrefix(HEALTH + v, LISTEN) && !HasPrefix(HEALTH + v, MODE) && !HasPrefix(HEALTH + v, DATA)
    ensures !HasPrefix(HEALTH + v, ENVFILE) && !HasPrefix(HEALTH + v, SECURE)
    ensures forall p | p in {LISTEN, MODE, DATA, ENVFILE, SECURE, HEALTH} :: !HasPrefix(p + v, MANAGED)
  {
    assert LISTEN[12] == 'l' && MODE[12] == 'l' && DATA[12] == 'd' && ENVFILE[12] == 'e' && SECURE[12] == 's'
           && HEALTH[12] == 'h' && MANAGED[12] == 'm' && LISTEN[18] == ':' && MODE[18] == '-';
    forall p | p in {LISTEN, MODE, DATA, ENVFILE, SECURE, HEALTH} ensures !HasPrefix(p + v, MANAGED) {
      assert (p + v)[12] == p[12];
    }
    assert (MODE + v)[18] == '-';
    assert (DATA + v)[12] == 'd' && (ENVFILE + v)[12] == 'e' && (SECURE + v)[12] == 's' && (HEALTH + v)[12] == 'h';
  }

  /** Recording a printed metadata line. */
  lemma RecordPrinted(s: Scan, v: string)
    requires Plain(v)
    ensures Record(s, LISTEN + v) == s.(listens := s.listens + 1, meta := s.meta.(listen := v))
    ensures Record(s, MODE + v) == s.(modes := s.modes + 1, meta := s.meta.(listenMode := v))
    ensures Record(s, DATA + v) == s.(datas := s.datas + 1, meta := s.meta.(data := v))
    ensures Record(s, ENVFILE + v) == s.(envfiles := s.envfiles + 1, meta := s.meta.(envfile := v))
    ensures Record(s, SECURE + v) == s.(secures := s.secures + 1, meta := s.meta.(secure := v == "1"))
    ensures Record(s, HEALTH + v) == s.(healths := s.healths + 1, meta := s.meta.(health := v))
  {
    PrefixesDiffer(v);
    TrimSnug(v);
    assert (LISTEN + v)[|LISTEN|..] == v && (MODE + v)[|MODE|..] == v && (DATA + v)[|DATA|..] == v;
    assert (ENVFILE + v)[|ENVFILE|..] == v && (SECURE + v)[|SECURE|..] == v && (HEALTH + v)[|HEALTH|..] == v;
  }

  lemma ScanPush(lines: seq<string>, ln: string)
    ensures Scanned(lines + [ln]) == Record(Scanned(lines), ln)
    ensures CountManaged(lines + [ln]) == CountManaged(lines) + if HasPrefix(ln, MANAGED) then 1 else 0
  {
    assert (lines + [ln])[..|lines|] == lines;
  }

  function ExpectedMeta(o: Options): Meta {
    Meta(Listener(o), ListenMode(o), DataDir(o), o.envFile, o.secureCookies, HEALTH_PATH)
  }

  lemma LiteralsPlain()
    ensures Plain(EXPLICIT) && Plain(BOOTSTRAP) && Plain("1") && Plain(HEALTH_PATH) && HEALTH_PATH != ""
  {
  }

  lemma ScanMaybe(lines: seq<string>, keep: bool, ln: string)
    ensures Scanned(lines + if keep then [ln] else []) == if keep then Record(Scanned(lines), ln) else Scanned(lines)
  {
    ScanPush(lines, ln);
    assert lines + [] == lines;
  }

  lemma FirstLinesScanned(a: string, b: string, c: string)
    requires Plain(a) && Plain(b) && Plain(c)
    ensures Scanned([LISTEN + a] + [DATA + b] + [MODE + c]) == Scan(1, 1, 1, 0, 0, 0, Meta(a, c, b, "", false, ""))
  {
    hide LISTEN, MODE, DATA, Record, Plain;
    assert [] + [LISTEN + a] == [LISTEN + a];
    ScanPush([], LISTEN + a);
    RecordPrinted(START, a);
    ScanPush([LISTEN + a], DATA + b);
    RecordPrinted(Scanned([LISTEN + a]), b);
    ScanPush([LISTEN + a] + [DATA + b], MODE + c);
    RecordPrinted(Scanned([LISTEN + a] + [DATA + b]), c);
  }

  lemma LastLinesScanned(lines: seq<string>, secure: bool, env: string, health: string)
    requires Plain(env) && Plain(health)
    requires Scanned(lines).envfiles == Scanned(lines).secures == Scanned(lines).healths == 0
    requires Scanned(lines).meta.envfile == "" && !Scanned(lines).meta.secure
    ensures Scanned(lines + (if secure then [SECURE + "1"] else []) + (if env != "" then [ENVFILE + env] else [])
                    + [HEALTH + health])
            == Scanned(lines).(secures := if secure then 1 else 0, envfiles := if env != "" then 1 else 0, healths := 1,
                               meta := Scanned(lines).meta.(secure := secure, envfile := env, health := health))
  {
    LiteralsPlain();
    hide SECURE, ENVFILE, HEALTH, Record, Plain, Scanned;
    var l4 := lines + if secure then [SECURE + "1"] else [];
    var l5 := l4 + if env != "" then [ENVFILE + env] else [];
    ScanMaybe(lines, secure, SECURE + "1");
    RecordPrinted(Scanned(lines), "1");
    ScanMaybe(l4, env != "", ENVFILE + env);
    RecordPrinted(Scanned(l4), env);
    ScanPush(l5, HEALTH + health);
    RecordPrinted(Scanned(l5), health);
  }

  lemma MetaScanned(o: Options)
    requires Recordable(o)
    ensures Complete(Scanned(MetaLines(o))) && Scanned(MetaLines(o)).meta == ExpectedMeta(o)
  {
    hide LISTEN, MODE, DATA, ENVFILE, SECURE, HEALTH, HEALTH_PATH, Listener, DataDir, Scanned;
    ListenerPlain(o);
    DataDirPlain(o);
    LiteralsPlain();
    FirstLinesScanned(Listener(o), DataDir(o), ListenMode(o));
    LastLinesScanned([LISTEN + Listener(o)] + [DATA + DataDir(o)] + [MODE + ListenMode(o)], o.secureCookies, o.envFile,
                     HEALTH_PATH);
  }

  lemma {:induction false} UnmanagedCount(head: seq<string>, lines: seq<string>)
    requires forall i | 0 <= i < |lines| :: !HasPrefix(lines[i], MANAGED)
    ensures CountManaged(head + lines) == CountManaged(head)
    decreases |lines|
  {
    if lines == [] {
      assert head + lines == head;
    } else {
      assert head + lines == (head + lines[..|lines| - 1]) + [lines[|lines| - 1]];
      ScanPush(head + lines[..|lines| - 1], lines[|lines| - 1]);
      UnmanagedCount(head, lines[..|lines| - 1]);
    }
  }

  lemma MetaNotManaged(o: Options)
    ensures forall i | 0 <= i < |MetaLines(o)| :: !HasPrefix(MetaLines(o)[i], MANAGED)
  {
    hide LISTEN, MODE, DATA, ENVFILE, SECURE, HEALTH, MANAGED, Listener, DataDir, ListenMode, HasPrefix;
    PrefixesDiffer(Listener(o));
    PrefixesDiffer(DataDir(o));
    PrefixesDiffer(ListenMode(o));
    PrefixesDiffer("1");
    PrefixesDiffer(o.envFile);
    PrefixesDiffer(HEALTH_PATH);
  }

  lemma PrefixOneLine(p: string, v: string)
    requires p in {LISTEN, MODE, DATA, ENVFILE, SECURE, HEALTH} && ControlFree(v)
    ensures OneLine(p + v)
  {
    assert OneLine(p);
    OneLineConcat(p, v);
  }

  lemma MetaOneLine(o: Options)
    requires Recordable(o)
    ensures forall i | 0 <= i < |MetaLines(o)| :: OneLine(MetaLines(o)[i])
  {
    hide LISTEN, MODE, DATA, ENVFILE, SECURE, HEALTH, HEALTH_PATH, EXPLICIT, BOOTSTRAP, Listener, DataDir, OneLine;
    ListenerPlain(o);
    DataDirPlain(o);
    LiteralsPlain();
    PrefixOneLine(LISTEN, Listener(o));
    PrefixOneLine(DATA, DataDir(o));
    PrefixOneLine(MODE, ListenMode(o));
    PrefixOneLine(SECURE, "1");
    PrefixOneLine(ENVFILE, o.envFile);
    PrefixOneLine(HEALTH, HEALTH_PATH);
  }

  lemma HeaderCount(digest: string)
    ensures CountManaged([MARKER, MANAGED + VERSION + digest]) == 1
  {
    assert MARKER[2] == 'M' && MANAGED[2] == 'w';
    assert HasPrefix(MANAGED + VERSION + digest, MANAGED);
    ScanPush([], MARKER);
    ScanPush([MARKER], MANAGED + VERSION + digest);
    assert [] + [MARKER] == [MARKER];
  }

  /** What follows the metadata does not change what is read. */
  lemma HeadedReads(content: string, meta: seq<string>, rest: seq<string>, hash: string -> string)
    requires IsDigest(hash(content)) && Split(content) == meta + rest && Inert(rest) && meta != []
    requires Complete(Scanned(meta)) && forall i | 0 <= i < |meta| :: !HasPrefix(meta[i], MANAGED)
    ensures ReadUnit(Headed(content, hash(content)), hash) == Success(Scanned(meta).meta)
  {
    hide MARKER, VERSION, Inert, IsDigest, Complete, Join, Split, Record, Headed, Scanned, CountManaged, HasPrefix;
    var digest := hash(content);
    SplitHeaded(content, digest);
    JoinSplit(content);
    InertScans(meta, rest);
    HeaderCount(digest);
    OneHeader([MARKER, MANAGED + VERSION + digest], meta, rest);
    HeaderParts(digest);
    var lines := Split(Headed(content, digest));
    assert lines[2..] == Split(content);
  }

  lemma HeaderParts(digest: string)
    ensures HasPrefix(MANAGED + VERSION + digest, MANAGED) && HasPrefix(MANAGED + VERSION + digest, MANAGED + VERSION)
    ensures (MANAGED + VERSION + digest)[|MANAGED + VERSION|..] == digest
  {
  }

  lemma OneHeader(head: seq<string>, meta: seq<string>, rest: seq<string>)
    requires Inert(rest) && forall i | 0 <= i < |meta| :: !HasPrefix(meta[i], MANAGED)
    ensures CountManaged(head + (meta + rest)) == CountManaged(head)
  {
    hide MANAGED, Inert, CountManaged, HasPrefix;
    UnmanagedCount(head, meta);
    InertScans(head + meta, rest);
    assert head + (meta + rest) == (head + meta) + rest;
  }

  lemma RestInert(o: Options)
    requires Recordable(o)
    ensures Inert(BodyLines(o) + [""])
  {
    hide BodyLines;
    BodyInert(o);
  }

  lemma ContentSplit(o: Options)
    requires Recordable(o)
    ensures Split(Content(o)) == MetaLines(o) + (BodyLines(o) + [""])
  {
    hide MetaLines, BodyLines, Recordable, Text, Split;
    BodyInert(o);
    MetaOneLine(o);
    SplitText(MetaLines(o) + BodyLines(o));
  }

  /** What is recorded: the address as given, or host and port joined, with an IPv6
      host in brackets; the mode that tells which; and the default data directory if
      none was given. */
  lemma ExpectedExactly(o: Options)
    ensures ExpectedMeta(o) == Meta(if o.listen != "" then o.listen
                                    else (if ':' in Trim(o.host) then "[" + Trim(o.host) + "]" else Trim(o.host))
                                         + ":" + Trim(o.port),
                                    if o.listen != "" then "bootstrap" else "explicit",
                                    if o.dataDir != "" then o.dataDir else "/var/lib/watchpost",
                                    o.envFile, o.secureCookies, "/healthz")
  {
  }

  /** Round trip: for all options whose values are trimmed and free of control
      characters, the built unit reads back as exactly the recorded listener,
      mode, data directory, environment file and cookie flag, whatever the checksum. */
  lemma UnitRoundTrips(o: Options, hash: string -> string)
    requires Recordable(o)
    ensures IsDigest(hash(Content(o))) ==> ReadUnit(BuildUnit(o, hash), hash) == Success(ExpectedMeta(o))
  {
    assert MetaLines(o) != [];
    hide MetaLines, BodyLines, Recordable, Split, Content, Headed, ReadUnit, Complete, Scanned, IsDigest, Inert;
    RestInert(o);
    ContentSplit(o);
    MetaScanned(o);
    MetaNotManaged(o);
    if IsDigest(hash(Content(o))) { HeadedReads(Content(o), MetaLines(o), BodyLines(o) + [""], hash); }
  }

  /** Any edit below the header is refused: it is reported as modified, or as
      malformed when it brings in another line with the header's prefix. */
  lemma EditsDetected(content: string, edited: string, hash: string -> string)
    requires IsDigest(hash(content)) && hash(edited) != hash(content)
    ensures ReadUnit(Headed(edited, hash(content)), hash) ==
            Failure(if CountManaged(Split(edited)) == 0 then Modified else Malformed)
  {
    var digest := hash(content);
    var head := [MARKER, MANAGED + VERSION + digest];
    SplitHeaded(edited, digest);
    JoinSplit(edited);
    HeaderCount(digest);
    CountConcat(head, Split(edited));
    var lines := Split(Headed(edited, digest));
    assert lines[2..] == Split(edited);
    assert lines[1][|MANAGED + VERSION|..] == digest;
  }

  lemma {:induction false} CountConcat(a: seq<string>, b: seq<string>)
    ensures CountManaged(a + b) == CountManaged(a) + CountManaged(b)
    decreases |b|
  {
    if b == [] {
      assert a + b == a;
    } else {
      CountConcat(a, b[..|b| - 1]);
      assert (a + b)[..|a + b| - 1] == a + b[..|b| - 1];
    }
  }
}
