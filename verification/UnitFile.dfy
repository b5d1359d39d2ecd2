/** The managed systemd unit: printing it from options, and authenticating and
    parsing it back. The checksum is any function to 64 hexadecimal digits. */
module UnitFile {
  import opened Outcomes

  const MARKER := "# Managed by watchpost. Do not edit manually."
  const MANAGED := "# watchpost-managed: "
  const VERSION := "v1 sha256="
  const HEALTH_PATH := "/healthz"
  const EXPLICIT := "explicit"
  const BOOTSTRAP := "bootstrap"
  const DEFAULT_DATA_DIR := "/var/lib/watchpost"
  const BINARY_PATH := "/usr/local/bin/watchpost"

  const LISTEN := "# watchpost-listen: "
  const MODE := "# watchpost-listen-mode: "
  const DATA := "# watchpost-data: "
  const ENVFILE := "# watchpost-envfile: "
  const SECURE := "# watchpost-secure-cookies: "
  const HEALTH := "# watchpost-health: "

  datatype Options = Options(dataDir: string, host: string, port: string, listen: string, secureCookies: bool,
                             envFile: string)

  datatype Meta = Meta(listen: string, listenMode: string, data: string, envfile: string, secure: bool, health: string)

  datatype ReadError = NotManaged | Malformed | Modified

  // ----- Text

  predicate IsSpace(c: char) {
    || c in {' ', '\t', '\n', '\r', '\U{000B}', '\U{000C}', '\U{0085}', '\U{00A0}', '\U{1680}', '\U{2028}', '\U{2029}',
             '\U{202F}', '\U{205F}', '\U{3000}'}
    || '\U{2000}' <= c <= '\U{200A}'
  }

  function TrimLeft(s: string): string {
    if s != "" && IsSpace(s[0]) then TrimLeft(s[1..]) else s
  }

  function TrimRight(s: string): string {
    if s != "" && IsSpace(s[|s| - 1]) then TrimRight(s[..|s| - 1]) else s
  }

  function Trim(s: string): string { TrimRight(TrimLeft(s)) }

  predicate ControlFree(s: string) {
    forall i | 0 <= i < |s| :: s[i] >= ' ' && s[i] != '\U{007F}'
  }

  predicate HasPrefix(s: string, p: string) { p <= s }

  /** Lines, each ended by a newline. */
  function Text(lines: seq<string>): string {
    if lines == [] then "" else lines[0] + "\n" + Text(lines[1..])
  }

  function Split(s: string): (lines: seq<string>)
    ensures |lines| >= 1
  {
    if s == "" then [""]
    else if s[0] == '\n' then [""] + Split(s[1..])
    else
      var rest := Split(s[1..]);
      [[s[0]] + rest[0]] + rest[1..]
  }

  function Join(lines: seq<string>): string
    requires lines != []
  {
    if |lines| == 1 then lines[0] else lines[0] + "\n" + Join(lines[1..])
  }

  predicate OneLine(s: string) { '\n' !in s }

  function Quoted(s: string): string {
    if s == "" then ""
    else
      (if s[0] == '%' then "%%"
       else if s[0] in {'"', '\\', '$', '`'} then ['\\', s[0]]
       else [s[0]]) + Quoted(s[1..])
  }

  function SystemdQuote(s: string): string { "\"" + Quoted(s) + "\"" }

  // ----- Printing

  function JoinHostPort(host: string, port: string): string {
    if ':' in host then "[" + host + "]:" + port else host + ":" + port
  }

  function Listener(o: Options): string {
    if o.listen != "" then o.listen else JoinHostPort(Trim(o.host), Trim(o.port))
  }

  function ListenMode(o: Options): string { if o.listen != "" then BOOTSTRAP else EXPLICIT }

  function DataDir(o: Options): string { if o.dataDir == "" then DEFAULT_DATA_DIR else o.dataDir }

  function Flag(name: string, value: string): string { " " + SystemdQuote(name) + " " + SystemdQuote(value) }

  function ExecStart(o: Options): string {
    "ExecStart=" + BINARY_PATH
    + (if o.listen != "" then Flag("--listen", o.listen)
       else Flag("--host", Trim(o.host)) + Flag("--port", Trim(o.port)))
    + Flag("--data-dir", DataDir(o))
    + (if o.secureCookies then " " + SystemdQuote("--secure-cookies") else "")
  }

  const UNIT_SECTION := ["[Unit]", "Description=Watchpost monitoring service", "After=network-online.target",
                         "Wants=network-online.target"]
  const START_LIMITS := ["StartLimitIntervalSec=60", "StartLimitBurst=5", ""]
  const SERVICE_SECTION := ["[Service]", "Type=simple", "User=watchpost", "Group=watchpost"]
  const HARDENING := ["Restart=on-failure", "RestartSec=3", "NoNewPrivileges=true", "PrivateTmp=true",
                      "ProtectSystem=strict", "ProtectHome=true"]
  const INSTALL_SECTION := ["", "[Install]", "WantedBy=multi-user.target"]

  function BodyLines(o: Options): seq<string> {
    UNIT_SECTION + START_LIMITS + SERVICE_SECTION + [ExecStart(o)] + HARDENING
        + ["ReadWritePaths=" + SystemdQuote(DataDir(o))]
    + (if o.envFile != "" then ["EnvironmentFile=" + SystemdQuote(o.envFile)] else [])
    + INSTALL_SECTION
  }

  function MetaLines(o: Options): seq<string> {
    [LISTEN + Listener(o)] + [DATA + DataDir(o)] + [MODE + ListenMode(o)]
    + (if o.secureCookies then [SECURE + "1"] else [])
    + (if o.envFile != "" then [ENVFILE + o.envFile] else [])
    + [HEALTH + HEALTH_PATH]
  }

  function Content(o: Options): string { Text(MetaLines(o) + BodyLines(o)) }

  function Headed(content: string, digest: string): string {
    MARKER + "\n" + (MANAGED + VERSION + digest + "\n") + content
  }

  function BuildUnit(o: Options, hash: string -> string): string {
    Headed(Content(o), hash(Content(o)))
  }

  // ----- Reading

  predicate HexDigit(c: char) { '0' <= c <= '9' || 'a' <= c <= 'f' }

  predicate IsDigest(s: string) { |s| == 64 && forall i | 0 <= i < |s| :: HexDigit(s[i]) }

  function CountManaged(lines: seq<string>): nat {
    if lines == [] then 0
    else CountManaged(lines[..|lines| - 1]) + if HasPrefix(lines[|lines| - 1], MANAGED) then 1 else 0
  }

  /** How often each field was seen, and the last value of each. */
  datatype Scan = Scan(listens: nat, modes: nat, datas: nat, envfiles: nat, secures: nat, healths: nat, meta: Meta)

  const START := Scan(0, 0, 0, 0, 0, 0, Meta("", BOOTSTRAP, "", "", false, ""))

  function After(ln: string, prefix: string): string
    requires HasPrefix(ln, prefix)
  {
    Trim(ln[|prefix|..])
  }

  function Record(s: Scan, ln: string): Scan {
    if HasPrefix(ln, LISTEN) then s.(listens := s.listens + 1, meta := s.meta.(listen := After(ln, LISTEN)))
    else if HasPrefix(ln, MODE) then s.(modes := s.modes + 1, meta := s.meta.(listenMode := After(ln, MODE)))
    else if HasPrefix(ln, DATA) then s.(datas := s.datas + 1, meta := s.meta.(data := After(ln, DATA)))
    else if HasPrefix(ln, ENVFILE) then s.(envfiles := s.envfiles + 1, meta := s.meta.(envfile := After(ln, ENVFILE)))
    else if HasPrefix(ln, SECURE) then s.(secures := s.secures + 1, meta := s.meta.(secure := After(ln, SECURE) == "1"))
    else if HasPrefix(ln, HEALTH) then s.(healths := s.healths + 1, meta := s.meta.(health := After(ln, HEALTH)))
    else s
  }

  function Scanned(lines: seq<string>): Scan {
    if lines == [] then START else Record(Scanned(lines[..|lines| - 1]), lines[|lines| - 1])
  }

  predicate Complete(s: Scan) {
    && s.listens == 1 && s.datas == 1 && s.healths == 1
    && s.meta.listen != "" && s.meta.data != "" && s.meta.health != ""
    && s.envfiles <= 1 && s.secures <= 1 && s.modes <= 1
    && (s.meta.listenMode == EXPLICIT || s.meta.listenMode == BOOTSTRAP)
    && s.meta.health == HEALTH_PATH && ControlFree(s.meta.listen) && ControlFree(s.meta.data)
  }

  function ReadUnit(content: string, hash: string -> string): Result<Meta, ReadError> {
    var lines := Split(content);
    if |lines| < 3 || lines[0] != MARKER then Failure(NotManaged)
    else if CountManaged(lines) != 1 || !HasPrefix(lines[1], MANAGED) then Failure(Malformed)
    else if !HasPrefix(lines[1], MANAGED + VERSION) || !IsDigest(lines[1][|MANAGED + VERSION|..])
        then Failure(Malformed)
    else if hash(Join(lines[2..])) != lines[1][|MANAGED + VERSION|..] then Failure(Modified)
    else
      var s := Scanned(lines[2..]);
      if Complete(s) then Success(s.meta) else Failure(Malformed)
  }

  method ReadManagedUnit(content: string, hash: string -> string) returns (r: Result<Meta, ReadError>)
    ensures r == ReadUnit(content, hash)
  {
    hide MARKER, LISTEN, MODE, DATA, ENVFILE, SECURE, HEALTH, After, Split, Join, IsDigest, ControlFree;
    var lines := Split(content);
    if |lines| < 3 || lines[0] != MARKER { return Failure(NotManaged); }
    var count := 0;
    for i := 0 to |lines|
      invariant count == CountManaged(lines[..i])
    {
      assert lines[..i + 1][..i] == lines[..i];
      if HasPrefix(lines[i], MANAGED) { count := count + 1; }
    }
    assert lines[..|lines|] == lines;
    if count != 1 || !HasPrefix(lines[1], MANAGED) { return Failure(Malformed); }
    if !HasPrefix(lines[1], MANAGED + VERSION) { return Failure(Malformed); }
    var digest := lines[1][|MANAGED + VERSION|..];
    if !IsDigest(digest) { return Failure(Malformed); }
    if hash(Join(lines[2..])) != digest { return Failure(Modified); }
    var body := lines[2..];
    var listens, modes, datas, envfiles, secures, healths := 0, 0, 0, 0, 0, 0;
    var meta := START.meta;
    for i := 0 to |body|
      invariant Scan(listens, modes, datas, envfiles, secures, healths, meta) == Scanned(body[..i])
    {
      var ln := body[i];
      assert body[..i + 1][..i] == body[..i];
      if HasPrefix(ln, LISTEN) {
        listens, meta := listens + 1, meta.(listen := After(ln, LISTEN));
      } else if HasPrefix(ln, MODE) {
        modes, meta := modes + 1, meta.(listenMode := After(ln, MODE));
      } else if HasPrefix(ln, DATA) {
        datas, meta := datas + 1, meta.(data := After(ln, DATA));
      } else if HasPrefix(ln, ENVFILE) {
        envfiles, meta := envfiles + 1, meta.(envfile := After(ln, ENVFILE));
      } else if HasPrefix(ln, SECURE) {
        secures, meta := secures + 1, meta.(secure := After(ln, SECURE) == "1");
      } else if HasPrefix(ln, HEALTH) {
        healths, meta := healths + 1, meta.(health := After(ln, HEALTH));
      }
    }
    assert body[..|body|] == body;
    if listens != 1 || datas != 1 || healths != 1 || meta.listen == "" || meta.data == "" || meta.health == "" {
      return Failure(Malformed);
    }
    if envfiles > 1 || secures > 1 || modes > 1 { return Failure(Malformed); }
    if meta.listenMode != EXPLICIT && meta.listenMode != BOOTSTRAP { return Failure(Malformed); }
    if meta.health != HEALTH_PATH { return Failure(Malformed); }
    if !ControlFree(meta.listen) || !ControlFree(meta.data) { return Failure(Malformed); }
    return Success(meta);
  }
}
