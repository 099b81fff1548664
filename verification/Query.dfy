/** The query of a predict request, written by the load generator
    (scheduler/cmd/loadgen/main.go:86-99) and read by the scheduler
    (scheduler/internal/api/handlers.go:124-138, 180). */
module Query {
  import opened Common
  import E = EngineSpec
  import opened Text

  // ------------------------------------------------------------- the client

  function TrimSlashes(s: string): (r: string)
    ensures |r| <= |s| && r == s[..|r|]
  {
    if s != [] && s[|s| - 1] == '/' then TrimSlashes(s[..|s| - 1]) else s
  }

  const ENGINE := "engine"
  const BUDGET := "latency_budget_ms"

  function Pair(key: string, value: string): string {
    key + ['='] + value
  }

  function Params(engine: string, budgetMs: int): seq<string> {
    (if engine != "" then [Pair(ENGINE, engine)] else [])
    + (if budgetMs > 0 then [Pair(BUDGET, Itoa(budgetMs))] else [])
  }

  function BuildPredictURL(baseURL: string, engine: string, budgetMs: int): string {
    var url := TrimSlashes(baseURL) + "/predict";
    var params := Params(engine, budgetMs);
    if |params| > 0 then url + ['?'] + Join(params, '&') else url
  }

  // ------------------------------------------------------------- the server

  /** stringContainsCTLByte of net/url and net/http. */
  predicate HasControl(s: string) {
    exists i | 0 <= i < |s| :: s[i] < ' ' || s[i] == '\U{007F}'
  }

  /** The request line that a client writes for a predict URL of an http origin.  It sends
      nothing if the URL has a control character before its fragment, does not send the
      fragment, and leaves the query as it is. */
  function RequestLine(url: string): Option<string> {
    var u := Before(url, '#');
    if !IsHttp(u) || HasControl(u) then None
    else Some("POST" + [' '] + FromPath(u[7..]) + [' '] + VERSION)
  }

  /** An absolute http URL; the scheme may be written in capitals. */
  predicate IsHttp(s: string) {
    && 7 <= |s| && s[4..7] == "://"
    && (s[0] == 'h' || s[0] == 'H') && (s[1] == 't' || s[1] == 'T')
    && (s[2] == 't' || s[2] == 'T') && (s[3] == 'p' || s[3] == 'P')
  }

  const VERSION := "HTTP/1.1"

  /** What follows the host. */
  function FromPath(s: string): string {
    s[IndexOf(s, '/')..]
  }

  /** ParseHTTPVersion, and the server's refusal of other major versions. */
  predicate Version1(s: string) {
    |s| == 8 && "HTTP/1." <= s && IsDigit(s[7])
  }

  /** How many bytes a character takes in UTF-8. */
  function Width(c: char): nat {
    if c < '\U{0080}' then 1 else if c < '\U{0800}' then 2 else if c < '\U{10000}' then 3 else 4
  }

  /** The query of a request line that reaches the predict handler.  The server cuts the
      line at its first two spaces, and answers by itself when what is left is no version,
      when the line is longer than the `room` its header limit leaves, or when the path is
      another one. */
  function ReceivedQuery(line: string, room: nat): Option<string> {
    var rest := After(line, ' ');
    var uri := Before(rest, ' ');
    if room < Sum(Width, line) || !Version1(After(rest, ' ')) || Before(uri, '?') != "/predict" then None
    else Some(After(uri, '?'))
  }

  predicate IsHex(c: char) {
    '0' <= c <= '9' || 'a' <= c <= 'f' || 'A' <= c <= 'F'
  }

  function HexValue(c: char): nat
    requires IsHex(c)
  {
    if c <= '9' then c as int - '0' as int
    else if c <= 'F' then c as int - 'A' as int + 10
    else c as int - 'a' as int + 10
  }

  /** url.QueryUnescape. */
  function Unescape(s: string): (r: Option<string>)
    ensures r.Some? ==> |r.value| <= |s|
  {
    if s == [] then Some([])
    else if s[0] == '%' then
      if |s| < 3 || !IsHex(s[1]) || !IsHex(s[2]) then None
      else
        match Unescape(s[3..])
        case None => None
        case Some(rest) => Some([(16 * HexValue(s[1]) + HexValue(s[2])) as char] + rest)
    else
      match Unescape(s[1..])
      case None => None
      case Some(rest) => Some([if s[0] == '+' then ' ' else s[0]] + rest)
  }

  /** One piece of a query; pieces with ';', empty pieces and pieces that cannot be
      unescaped are dropped. */
  function ParsePiece(piece: string): seq<(string, string)> {
    if ';' in piece || piece == "" then []
    else
      match (Unescape(Before(piece, '=')), Unescape(After(piece, '=')))
      case (Some(key), Some(value)) => [(key, value)]
      case _ => []
  }

  /** url.Values of a raw query, in order. */
  function ParseQuery(raw: string): seq<(string, string)> {
    FlatMap(ParsePiece, Split(raw, '&'))
  }

  /** Values.Get: the first value of a key, or "". */
  function Get(values: seq<(string, string)>, key: string): string {
    if values == [] then "" else if values[0].0 == key then values[0].1 else Get(values[1..], key)
  }

  /** What the handler reads of a request for this URL, if the request gets to it. */
  function Param(url: string, room: nat, key: string): Option<string> {
    match RequestLine(url)
    case None => None
    case Some(line) =>
      match ReceivedQuery(line, room)
      case None => None
      case Some(raw) => Some(Get(ParseQuery(raw), key))
  }

  // --------------------------------------------------------- latency budgets

  const DEFAULT_LATENCY_BUDGET: int := 10_000_000_000     // 10 s in nanoseconds
  const MILLISECOND: int := 1_000_000

  /** Multiplication wraps around in a 64-bit int. */
  function Wrap64(x: int): (r: int)
    ensures MIN_INT64 <= r <= MAX_INT64
    ensures MIN_INT64 <= x <= MAX_INT64 ==> r == x
  {
    var u := x % TWO64;
    if u > MAX_INT64 then u - TWO64 else u
  }

  function ParseLatencyBudget(raw: string, maxBudget: int): Result<int> {
    if raw == "" then Ok(DEFAULT_LATENCY_BUDGET)
    else
      match Atoi(raw)
      case None => Err("invalid latency_budget_ms")
      case Some(ms) =>
        if ms <= 0 then Err("invalid latency_budget_ms")
        else
          var budget := Wrap64(ms * MILLISECOND);
          Ok(if budget > maxBudget then maxBudget else budget)
  }

  function Min(a: int, b: int): int {
    if a < b then a else b
  }

  /** The only 64-bit int that differs from x by a multiple of 2^64. */
  lemma Wrap64Is(x: int, r: int)
    ensures r == Wrap64(x) <==> MIN_INT64 <= r <= MAX_INT64 && (x - r) % TWO64 == 0
  {
  }

  /** What an explicit budget is worth, overflow included: its nanoseconds as a 64-bit int,
      or the maximum if that is less. */
  lemma BudgetIs(raw: string, ms: int, maxBudget: int, nanoseconds: int)
    requires Atoi(raw) == Some(ms) && 0 < ms
    requires MIN_INT64 <= nanoseconds <= MAX_INT64 && (ms * 1_000_000 - nanoseconds) % TWO64 == 0
    ensures ParseLatencyBudget(raw, maxBudget) == Ok(if maxBudget < nanoseconds then maxBudget else nanoseconds)
  {
    assert raw != "";
    Wrap64Is(ms * MILLISECOND, nanoseconds);
  }

  /** An explicit budget of ms milliseconds is clamped to the maximum exactly when ms does
      not overflow the nanosecond count, or overflows to at least the maximum. */
  lemma ClampedIff(raw: string, ms: int, maxBudget: int)
    requires Atoi(raw) == Some(ms) && 0 < ms && MIN_INT64 <= maxBudget <= MAX_INT64
    ensures ParseLatencyBudget(raw, maxBudget) == Ok(Min(ms * MILLISECOND, maxBudget))
            <==> ms * MILLISECOND <= MAX_INT64 || maxBudget <= Wrap64(ms * MILLISECOND)
  {
    assert raw != "";
  }

  /** An optional plus sign and digits, worth a positive 64-bit int. */
  ghost predicate PositiveNumeral(raw: string) {
    exists digits ::
      && (raw == digits || raw == ['+'] + digits)
      && AllDigits(digits) && 1 <= Value(digits) <= MAX_INT64
  }

  /** The texts that are not refused: no parameter at all, or a positive numeral. */
  lemma AcceptedIff(raw: string, maxBudget: int)
    ensures ParseLatencyBudget(raw, maxBudget).Ok? <==> raw == "" || PositiveNumeral(raw)
  {
    if ParseLatencyBudget(raw, maxBudget).Ok? && raw != "" {
      var digits := if raw[0] == '+' then raw[1..] else raw;
      assert raw[0] != '-';
      assert raw == if raw[0] == '+' then ['+'] + digits else digits;
    }
    if PositiveNumeral(raw) {
      var digits :| (raw == digits || raw == ['+'] + digits) && AllDigits(digits) && 1 <= Value(digits) <= MAX_INT64;
      assert digits != [] && IsDigit(digits[0]);
      assert raw == ['+'] + digits ==> raw[1..] == digits;
    }
  }

  /** The shortest budget that overflows becomes a deadline in the past, below any maximum. */
  lemma OverflowIsNotClamped(maxBudget: int)
    requires 0 <= maxBudget <= MAX_INT64
    ensures var ms := MAX_INT64 / MILLISECOND + 1;
            && ParseLatencyBudget(Itoa(ms), maxBudget).Ok?
            && ParseLatencyBudget(Itoa(ms), maxBudget).value < 0
            && ParseLatencyBudget(Itoa(ms), maxBudget) != Ok(Min(ms * MILLISECOND, maxBudget))
  {
    var ms := MAX_INT64 / MILLISECOND + 1;
    AtoiItoa(ms);
    assert Wrap64(ms * MILLISECOND) < 0;
  }

  // -------------------------------------------------------- reading a query

  lemma ParseQueryConcat(a: string, b: string)
    ensures ParseQuery(a + ['&'] + b) == ParseQuery(a) + ParseQuery(b)
  {
    SplitConcat(a, '&', b);
    FlatMapConcat(ParsePiece, Split(a, '&'), Split(b, '&'));
  }

  lemma ParseOnePiece(piece: string)
    requires '&' !in piece
    ensures ParseQuery(piece) == ParsePiece(piece)
  {
    assert [piece][..0] == [];
    assert FlatMap(ParsePiece, [piece]) == FlatMap(ParsePiece, [piece][..0]) + ParsePiece(piece);
  }

  predicate HasKey(values: seq<(string, string)>, key: string) {
    exists i | 0 <= i < |values| :: values[i].0 == key
  }

  lemma {:induction false} GetConcat(a: seq<(string, string)>, b: seq<(string, string)>, key: string)
    ensures Get(a + b, key) == if HasKey(a, key) then Get(a, key) else Get(b, key)
  {
    if a == [] {
      assert a + b == b;
    } else {
      assert (a + b)[1..] == a[1..] + b;
      GetConcat(a[1..], b, key);
      assert HasKey(a, key) <==> a[0].0 == key || HasKey(a[1..], key) by {
        assert a == [a[0]] + a[1..];
      }
    }
  }

  /** Of several values for a key Get returns the first. */
  lemma {:induction false} GetIsFirst(values: seq<(string, string)>, key: string, i: nat)
    requires i < |values| && values[i].0 == key && forall j | 0 <= j < i :: values[j].0 != key
    ensures Get(values, key) == values[i].1
  {
    if 0 < i {
      assert values[0].0 != key;
      assert forall j | 0 <= j < |values| - 1 :: values[1..][j] == values[j + 1];
      GetIsFirst(values[1..], key, i - 1);
    }
  }

  /** A value that Get returns is "" or one of the values. */
  lemma {:induction false} GetMember(values: seq<(string, string)>, key: string)
    ensures Get(values, key) == "" || (key, Get(values, key)) in values
    ensures !HasKey(values, key) ==> Get(values, key) == ""
  {
    if values != [] {
      GetMember(values[1..], key);
      assert values == [values[0]] + values[1..];
      assert forall i | 0 <= i < |values| - 1 :: values[1..][i] == values[i + 1];
    }
  }

  /** No value is longer than the query. */
  lemma QueryValueBound(raw: string, key: string)
    ensures |Get(ParseQuery(raw), key)| <= |raw|
  {
    var v := Get(ParseQuery(raw), key);
    GetMember(ParseQuery(raw), key);
    if v != "" {
      FlatMapMembers(ParsePiece, Split(raw, '&'), (key, v));
      var i :| 0 <= i < |Split(raw, '&')| && (key, v) in ParsePiece(Split(raw, '&')[i]);
      SplitParts(raw, '&');
      PieceValueBound(Split(raw, '&')[i], (key, v));
    }
  }

  lemma PieceValueBound(piece: string, kv: (string, string))
    requires kv in ParsePiece(piece)
    ensures |kv.1| <= |piece|
  {
    assert |After(piece, '=')| <= |piece|;
  }

  function HexDigit(n: nat): char
    requires n < 16
  {
    (if n < 10 then '0' as int + n else 'A' as int + n - 10) as char
  }

  predicate IsByte(c: char) {
    c as int < 256
  }

  /** Every byte written as a percent sign and two hexadecimal digits. */
  function Escaped(s: string): (r: string)
    requires forall i | 0 <= i < |s| :: IsByte(s[i])
  {
    if s == [] then []
    else
      assert IsByte(s[0]);
      ['%', HexDigit(s[0] as int / 16), HexDigit(s[0] as int % 16)] + Escaped(s[1..])
  }

  lemma HexDigitValue(n: nat)
    requires n < 16
    ensures IsHex(HexDigit(n)) && HexValue(HexDigit(n)) == n
  {
  }

  /** Unescaping undoes escaping, for all text of bytes. */
  lemma {:induction false} UnescapeEscaped(s: string)
    requires forall i | 0 <= i < |s| :: IsByte(s[i])
    ensures Unescape(Escaped(s)) == Some(s)
  {
    if s != [] {
      var high, low := s[0] as int / 16, s[0] as int % 16;
      HexDigitValue(high);
      HexDigitValue(low);
      UnescapeEscaped(s[1..]);
      assert Escaped(s)[3..] == Escaped(s[1..]);
      assert (16 * high + low) as char == s[0];
      assert s == [s[0]] + s[1..];
    }
  }

  /** Text that unescaping leaves as it is. */
  lemma {:induction false} UnescapeIff(s: string)
    ensures Unescape(s) == Some(s) <==> '%' !in s && '+' !in s
    ensures '%' in s && Unescape(s).Some? ==> |Unescape(s).value| < |s|
  {
    if s != [] {
      assert s == [s[0]] + s[1..];
      UnescapeIff(s[1..]);
      if s[0] != '%' && Unescape(s[1..]).Some? {
        assert Unescape(s).value[1..] == Unescape(s[1..]).value;
      }
    }
  }

  // ------------------------------------------------------------ the round trip

  /** Text that stands for itself in a query. */
  predicate Literal(s: string) {
    '&' !in s && '#' !in s && ';' !in s && '%' !in s && '+' !in s
  }

  /** Names that survive the way to the handler, written without escaping as they are. */
  predicate Plain(s: string) {
    Literal(s) && ' ' !in s && !HasControl(s)
  }

  /** What the server makes of key=value, for a plain key. */
  lemma PieceOf(key: string, value: string)
    requires Literal(key) && '=' !in key
    ensures ParsePiece(Pair(key, value))
            == if ';' !in value && Unescape(value).Some? then [(key, Unescape(value).value)] else []
  {
    CutAt(key, '=', value);
    UnescapeIff(key);
    assert Pair(key, value)[|key|] == '=';
    assert ';' in Pair(key, value) <==> ';' in value;
  }

  lemma QueryOfPair(key: string, value: string)
    requires Literal(key) && '=' !in key && '&' !in value
    ensures ParseQuery(Pair(key, value))
            == if ';' !in value && Unescape(value).Some? then [(key, Unescape(value).value)] else []
  {
    assert '&' !in Pair(key, value);
    ParseOnePiece(Pair(key, value));
    PieceOf(key, value);
  }

  /** An '&' in a value ends its piece. */
  lemma CutPair(key: string, value: string)
    requires '&' in value
    ensures ParseQuery(Pair(key, value))
            == ParseQuery(Pair(key, Before(value, '&'))) + ParseQuery(After(value, '&'))
  {
    var x, y := Before(value, '&'), After(value, '&');
    CutParts(value, '&');
    assert Pair(key, value) == Pair(key, x) + ['&'] + y;
    ParseQueryConcat(Pair(key, x), y);
  }

  lemma ShorterAfterCut(key: string, value: string)
    requires Literal(key) && '=' !in key && '&' in value
    ensures |Get(ParseQuery(Pair(key, value)), key)| < |value|
  {
    var x, y := Before(value, '&'), After(value, '&');
    CutPair(key, value);
    CutParts(value, '&');
    QueryOfPair(key, x);
    QueryValueBound(y, key);
    GetConcat(ParseQuery(Pair(key, x)), ParseQuery(y), key);
  }

  /** A value without '#' reads back exactly if it stands for itself. */
  lemma ReadsBackIff(key: string, value: string)
    requires Literal(key) && '=' !in key && value != "" && '#' !in value
    ensures Get(ParseQuery(Pair(key, value)), key) == value <==> Literal(value)
    ensures Literal(value) ==> ParseQuery(Pair(key, value)) == [(key, value)]
    ensures !HasKey(ParseQuery(Pair(key, value)), key) ==> Get(ParseQuery(Pair(key, value)), key) == ""
  {
    GetMember(ParseQuery(Pair(key, value)), key);
    if '&' in value {
      ShorterAfterCut(key, value);
    } else {
      QueryOfPair(key, value);
      UnescapeIff(value);
    }
  }

  lemma PlainKeys()
    ensures Literal(ENGINE) && '=' !in ENGINE && Literal(BUDGET) && '=' !in BUDGET && ENGINE != BUDGET
  {
    assert ENGINE[0] != BUDGET[0];
  }

  lemma PlainNumber(n: nat)
    ensures Literal(Itoa(n)) && Itoa(n) != ""
  {
  }

  /** The address of a server: http, a host, and any slashes after it. */
  predicate Origin(base: string) {
    && IsHttp(base) && !HasControl(base)
    && var host := Before(base[7..], '/');
       host != "" && '?' !in host && '#' !in host && forall i | 7 + |host| <= i < |base| :: base[i] == '/'
  }

  /** Trimming takes off exactly the slashes at the end. */
  lemma {:induction false} TrimSlashesIs(s: string, k: nat)
    requires k <= |s| && (k == 0 || s[k - 1] != '/') && forall i | k <= i < |s| :: s[i] == '/'
    ensures TrimSlashes(s) == s[..k]
  {
    if k < |s| {
      TrimSlashesIs(s[..|s| - 1], k);
      assert s[..|s| - 1][..k] == s[..k];
    } else {
      assert s[..k] == s;
    }
  }

  lemma ControlPrefix(s: string, k: nat)
    requires k <= |s| && !HasControl(s)
    ensures !HasControl(s[..k])
  {
    ControlConcat(s[..k], s[k..]);
    assert s[..k] + s[k..] == s;
  }

  /** What is left of a server's address: scheme and host. */
  lemma OriginTrimmed(base: string)
    requires Origin(base)
    ensures var s := TrimSlashes(base);
            && IsHttp(s) && !HasControl(s)
            && '/' !in s[7..] && '#' !in s[7..] && s[7..] == Before(base[7..], '/')
  {
    var rest := base[7..];
    var host := Before(rest, '/');
    CutParts(rest, '/');
    var k := 7 + |host|;
    assert host[|host| - 1] != '/' && base[k - 1] == host[|host| - 1];
    TrimSlashesIs(base, k);
    ControlPrefix(base, k);
    SchemeOfPrefix(base, k);
    assert base[..k][7..] == host;
  }

  lemma SchemeOfPrefix(s: string, k: nat)
    requires IsHttp(s) && 7 <= k <= |s|
    ensures IsHttp(s[..k])
  {
    assert s[..k][4..7] == s[4..7];
  }

  lemma ControlConcat(a: string, b: string)
    ensures HasControl(a + b) <==> HasControl(a) || HasControl(b)
  {
    if i :| 0 <= i < |a| && (a[i] < ' ' || a[i] == '\U{007F}') {
      assert (a + b)[i] == a[i];
    }
    if i :| 0 <= i < |b| && (b[i] < ' ' || b[i] == '\U{007F}') {
      assert (a + b)[|a| + i] == b[i];
    }
  }

  lemma CleanPath(s: string)
    requires IsHttp(s) && !HasControl(s) && '#' !in s[7..]
    ensures '#' !in s + "/predict" && !HasControl(s + "/predict")
  {
    ControlConcat(s, "/predict");
    NoFragmentInScheme(s);
  }

  lemma NoFragmentInScheme(s: string)
    requires IsHttp(s) && '#' !in s[7..]
    ensures '#' !in s
  {
    assert s[4] == s[4..7][0] && s[5] == s[4..7][1] && s[6] == s[4..7][2];
    forall i | 0 <= i < |s| ensures s[i] != '#' {
      if 7 <= i {
        assert s[7..][i - 7] == s[i];
      }
    }
  }

  /** Everything before the query has no '#' and no control character. */
  lemma OriginPath(base: string)
    requires Origin(base)
    ensures var path := TrimSlashes(base) + "/predict";
            '#' !in path && !HasControl(path)
  {
    OriginTrimmed(base);
    CleanPath(TrimSlashes(base));
  }

  lemma PathFollowsHost(host: string, rest: string)
    requires '/' !in host
    ensures FromPath(host + ['/'] + rest) == ['/'] + rest
  {
    IndexAt(host, '/', rest);
  }

  /** What the client makes of the URL before its fragment. */
  lemma PathOfURL(s: string, x: string)
    requires IsHttp(s) && '/' !in s[7..]
    ensures var u := s + "/predict" + ['?'] + x; IsHttp(u) && FromPath(u[7..]) == "/predict" + ['?'] + x
  {
    var u, host := s + "/predict" + ['?'] + x, s[7..];
    assert u[..7] == s[..7] && u[4..7] == s[4..7];
    assert u[7..] == host + ['/'] + ("predict" + ['?'] + x);
    PathFollowsHost(host, "predict" + ['?'] + x);
    assert ['/'] + ("predict" + ['?'] + x) == "/predict" + ['?'] + x;
  }

  lemma ControlOfURL(path: string, x: string)
    requires !HasControl(path)
    ensures HasControl(path + ['?'] + x) <==> HasControl(x)
  {
    ControlConcat(path + ['?'], x);
    ControlConcat(path, ['?']);
  }

  /** The line for a query: what the client writes, unless the query, up to a '#' in it,
      has a control character. */
  lemma LineOfURL(base: string, query: string)
    requires Origin(base)
    ensures RequestLine(TrimSlashes(base) + "/predict" + ['?'] + query)
            == if HasControl(Before(query, '#')) then None else Some(LineFor(Before(query, '#')))
  {
    var path := TrimSlashes(base) + "/predict";
    OriginTrimmed(base);
    OriginPath(base);
    BeforeSuffix(path, query);
    PathOfURL(TrimSlashes(base), Before(query, '#'));
    ControlOfURL(path, Before(query, '#'));
  }

  function LineFor(query: string): string {
    "POST" + [' '] + ("/predict" + ['?'] + query) + [' '] + VERSION
  }

  /** The fragment of path?query starts at the first '#' of the query. */
  lemma BeforeSuffix(path: string, query: string)
    requires '#' !in path
    ensures Before(path + ['?'] + query, '#') == path + ['?'] + Before(query, '#')
  {
    var x, y := Before(query, '#'), After(query, '#');
    CutParts(query, '#');
    if '#' in query {
      assert path + ['?'] + query == (path + ['?'] + x) + ['#'] + y;
      CutAt(path + ['?'] + x, '#', y);
    } else {
      CutNone(path + ['?'] + query, '#');
    }
  }

  lemma AfterMethod(uri: string)
    ensures After("POST" + [' '] + uri + [' '] + VERSION, ' ') == uri + [' '] + VERSION
  {
    assert "POST" + [' '] + uri + [' '] + VERSION == "POST" + [' '] + (uri + [' '] + VERSION);
    CutAt("POST", ' ', uri + [' '] + VERSION);
  }

  lemma PathAndQuery(query: string)
    ensures Before("/predict" + ['?'] + query, '?') == "/predict" && After("/predict" + ['?'] + query, '?') == query
  {
    CutAt("/predict", '?', query);
  }

  lemma ReceivedFrom(line: string, uri: string, query: string, room: nat)
    requires After(line, ' ') == uri + [' '] + VERSION
    requires Before(uri, '?') == "/predict" && After(uri, '?') == query
    ensures ReceivedQuery(line, room) == if ' ' in uri || room < Sum(Width, line) then None else Some(query)
  {
    if ' ' in uri {
      SpaceSpoilsVersion(uri);
    } else {
      CutAt(uri, ' ', VERSION);
    }
  }

  lemma SpaceOfQuery(query: string)
    ensures ' ' in "/predict" + ['?'] + query <==> ' ' in query
  {
  }

  /** A line is received whole exactly if its query has no space and it fits. */
  lemma ReceivedIff(query: string, room: nat)
    ensures ReceivedQuery(LineFor(query), room)
            == if ' ' in query || room < Sum(Width, LineFor(query)) then None else Some(query)
  {
    var uri := "/predict" + ['?'] + query;
    AfterMethod(uri);
    PathAndQuery(query);
    SpaceOfQuery(query);
    ReceivedFrom(LineFor(query), uri, query, room);
  }

  lemma SpaceSpoilsVersion(uri: string)
    requires ' ' in uri
    ensures !Version1(After(uri + [' '] + VERSION, ' '))
  {
    var x, y := Before(uri, ' '), After(uri, ' ');
    CutParts(uri, ' ');
    assert uri + [' '] + VERSION == x + [' '] + (y + [' '] + VERSION);
    CutAt(x, ' ', y + [' '] + VERSION);
  }

  /** The query that gets to the handler. */
  lemma ParamOfURL(base: string, engine: string, budgetMs: int, room: nat, key: string)
    requires Origin(base) && Params(engine, budgetMs) != []
    ensures var query := Before(Join(Params(engine, budgetMs), '&'), '#');
            Param(BuildPredictURL(base, engine, budgetMs), room, key)
            == if HasControl(query) || ' ' in query || room < Sum(Width, LineFor(query)) then None
               else Some(Get(ParseQuery(query), key))
  {
    var query := Join(Params(engine, budgetMs), '&');
    LineOfURL(base, query);
    ReceivedIff(Before(query, '#'), room);
  }

  function BudgetPairs(budgetMs: int): seq<(string, string)> {
    if budgetMs > 0 then [(BUDGET, Itoa(budgetMs))] else []
  }

  /** What the server parses, for an engine name without '#'. */
  lemma ParsedParams(engine: string, budgetMs: int)
    requires engine != "" && '#' !in engine
    ensures ParseQuery(Before(Join(Params(engine, budgetMs), '&'), '#'))
            == ParseQuery(Pair(ENGINE, engine)) + BudgetPairs(budgetMs)
  {
    PlainKeys();
    var first := Pair(ENGINE, engine);
    assert '#' !in first;
    if budgetMs > 0 {
      var second := Pair(BUDGET, Itoa(budgetMs));
      PlainNumber(budgetMs);
      assert '#' !in second;
      JoinTwo(first, second);
      CutNone(first + ['&'] + second, '#');
      ParseQueryConcat(first, second);
      QueryOfPair(BUDGET, Itoa(budgetMs));
      UnescapeIff(Itoa(budgetMs));
    } else {
      CutNone(first, '#');
    }
  }

  lemma JoinTwo(a: string, b: string)
    ensures Join([a] + [b], '&') == a + ['&'] + b
  {
    assert ([a] + [b])[..1] == [a];
  }

  /** With a '#' in the name the query ends there. */
  lemma FragmentEndsQuery(engine: string, budgetMs: int)
    requires '#' in engine
    ensures Before(Join(Params(engine, budgetMs), '&'), '#') == Pair(ENGINE, Before(engine, '#'))
  {
    PlainKeys();
    var x, y := Before(engine, '#'), After(engine, '#');
    CutParts(engine, '#');
    var rest := if budgetMs > 0 then ['&'] + Pair(BUDGET, Itoa(budgetMs)) else [];
    QueryWithRest(engine, budgetMs, rest);
    PairAndRest(ENGINE, x, y, rest);
    assert '#' !in Pair(ENGINE, x);
    CutAt(Pair(ENGINE, x), '#', y + rest);
  }

  lemma QueryWithRest(engine: string, budgetMs: int, rest: string)
    requires engine != "" && rest == if budgetMs > 0 then ['&'] + Pair(BUDGET, Itoa(budgetMs)) else []
    ensures Join(Params(engine, budgetMs), '&') == Pair(ENGINE, engine) + rest
  {
    if budgetMs > 0 {
      JoinTwo(Pair(ENGINE, engine), Pair(BUDGET, Itoa(budgetMs)));
    }
  }

  lemma PairAndRest(key: string, x: string, y: string, rest: string)
    ensures Pair(key, x + ['#'] + y) + rest == Pair(key, x) + ['#'] + (y + rest)
  {
  }

  lemma FragmentCutsEngine(engine: string, budgetMs: int)
    requires '#' in engine
    ensures |Get(ParseQuery(Before(Join(Params(engine, budgetMs), '&'), '#')), ENGINE)| < |engine|
  {
    PlainKeys();
    var x := Before(engine, '#');
    FragmentEndsQuery(engine, budgetMs);
    if '&' in x {
      ShorterAfterCut(ENGINE, x);
    } else {
      QueryOfPair(ENGINE, x);
    }
  }

  /** Digits, keys and separators have no space and no control character. */
  lemma CleanQuery(engine: string, budgetMs: int)
    ensures var query := Join(Params(engine, budgetMs), '&');
            (HasControl(query) <==> HasControl(engine)) && (' ' in query <==> ' ' in engine)
  {
    var first, second := Pair(ENGINE, engine), Pair(BUDGET, if budgetMs > 0 then Itoa(budgetMs) else "0");
    CleanPair(ENGINE, engine);
    CleanPair(BUDGET, if budgetMs > 0 then Itoa(budgetMs) else "0");
    if engine != "" && budgetMs > 0 {
      JoinTwo(first, second);
      ControlConcat(first + ['&'], second);
      ControlConcat(first, ['&']);
    }
  }

  lemma CleanPair(key: string, value: string)
    requires !HasControl(key) && ' ' !in key
    ensures (HasControl(Pair(key, value)) <==> HasControl(value)) && (' ' in Pair(key, value) <==> ' ' in value)
  {
    ControlConcat(key + ['='], value);
    ControlConcat(key, ['=']);
  }

  lemma NoFragment(engine: string, budgetMs: int)
    requires '#' !in engine
    ensures var query := Join(Params(engine, budgetMs), '&'); Before(query, '#') == query
  {
    var second := Pair(BUDGET, if budgetMs > 0 then Itoa(budgetMs) else "0");
    if engine != "" && budgetMs > 0 {
      JoinTwo(Pair(ENGINE, engine), second);
    }
    assert '#' !in Pair(ENGINE, engine) && '#' !in second;
    CutNone(Join(Params(engine, budgetMs), '&'), '#');
  }

  /** The request line fits the room that the server leaves for it. */
  predicate Fits(engine: string, budgetMs: int, room: nat) {
    Sum(Width, LineFor(Join(Params(engine, budgetMs), '&'))) <= room
  }

  lemma QueryReadsBackIff(engine: string, budgetMs: int)
    requires engine != "" && '#' !in engine
    ensures Get(ParseQuery(Before(Join(Params(engine, budgetMs), '&'), '#')), ENGINE) == engine <==> Literal(engine)
  {
    PlainKeys();
    ParsedParams(engine, budgetMs);
    ReadsBackIff(ENGINE, engine);
    GetConcat(ParseQuery(Pair(ENGINE, engine)), BudgetPairs(budgetMs), ENGINE);
    assert Get(BudgetPairs(budgetMs), ENGINE) == "";
  }

  /** The engine named to the load generator reaches the handler exactly when the name has
      none of the characters & # ; % and +, no space and no control character, and the
      request line is not too long. */
  lemma EngineArrivesIff(base: string, engine: string, budgetMs: int, room: nat)
    requires Origin(base) && engine != ""
    ensures Param(BuildPredictURL(base, engine, budgetMs), room, "engine") == Some(engine)
            <==> Plain(engine) && Fits(engine, budgetMs, room)
  {
    ParamOfURL(base, engine, budgetMs, room, ENGINE);
    if '#' in engine {
      FragmentCutsEngine(engine, budgetMs);
    } else {
      QueryReadsBackIff(engine, budgetMs);
      CleanQuery(engine, budgetMs);
      NoFragment(engine, budgetMs);
    }
  }

  /** A name that both command lines take and that never arrives: the server cuts the
      request line at its space and finds no version. */
  lemma SpaceIsRefused(base: string, budgetMs: int, room: nat)
    requires Origin(base)
    ensures E.Expressible(E.Engine("a b", "h:1"))
    ensures Param(BuildPredictURL(base, "a b", budgetMs), room, ENGINE) == None
  {
    assert "a b"[1] == ' ';
    NotSent(base, "a b", budgetMs, room);
  }

  /** And one that the client does not send. */
  lemma NewlineIsNotSent(base: string, budgetMs: int, room: nat)
    requires Origin(base)
    ensures RequestLine(BuildPredictURL(base, "a\nb", budgetMs)) == None
  {
    assert "a\nb"[1] == '\n';
    LineOfURL(base, Join(Params("a\nb", budgetMs), '&'));
    CleanQuery("a\nb", budgetMs);
    NoFragment("a\nb", budgetMs);
  }

  lemma NotSent(base: string, engine: string, budgetMs: int, room: nat)
    requires Origin(base) && engine != "" && '#' !in engine && ' ' in engine
    ensures Param(BuildPredictURL(base, engine, budgetMs), room, ENGINE) == None
  {
    ParamOfURL(base, engine, budgetMs, room, ENGINE);
    CleanQuery(engine, budgetMs);
    NoFragment(engine, budgetMs);
  }

  lemma GetOfOne(key: string, value: string, other: string)
    ensures Get([(key, value)], key) == value
    ensures other != key ==> Get([(key, value)], other) == "" && !HasKey([(key, value)], other)
  {
  }

  lemma GetOfTwo(k1: string, v1: string, k2: string, v2: string)
    requires k1 != k2
    ensures Get([(k1, v1)] + [(k2, v2)], k1) == v1 && Get([(k1, v1)] + [(k2, v2)], k2) == v2
  {
    GetOfOne(k1, v1, k2);
    GetOfOne(k2, v2, k1);
    assert [(k1, v1)][0].0 == k1;
    GetConcat([(k1, v1)], [(k2, v2)], k1);
    GetConcat([(k1, v1)], [(k2, v2)], k2);
  }

  lemma BothArrive(engine: string, n: nat)
    requires Literal(engine) && engine != "" && 0 < n
    ensures var values := ParseQuery(Before(Join(Params(engine, n), '&'), '#'));
            Get(values, ENGINE) == engine && Get(values, BUDGET) == Itoa(n)
  {
    PlainKeys();
    ParsedParams(engine, n);
    ReadsBackIff(ENGINE, engine);
    GetOfTwo(ENGINE, engine, BUDGET, Itoa(n));
  }

  lemma BudgetArrives(n: nat)
    requires 0 < n
    ensures var values := ParseQuery(Before(Join(Params("", n), '&'), '#'));
            Get(values, ENGINE) == "" && Get(values, BUDGET) == Itoa(n)
  {
    PlainKeys();
    PlainNumber(n);
    var piece := Pair(BUDGET, Itoa(n));
    assert Params("", n) == [piece];
    assert '#' !in piece;
    CutNone(piece, '#');
    ReadsBackIff(BUDGET, Itoa(n));
    GetOfOne(BUDGET, Itoa(n), ENGINE);
  }

  /** Client and server agree: a plain engine name, or none, and a budget that does not
      overflow are read back, the budget as min(budget, maximum). */
  lemma QueryRoundTrip(base: string, engine: string, budgetMs: int, room: nat, maxBudget: int)
    requires Origin(base) && Plain(engine) && Fits(engine, budgetMs, room)
    requires 0 < budgetMs <= 0x7fff_ffff_ffff_ffff / 1_000_000
    ensures var url := BuildPredictURL(base, engine, budgetMs);
            var nanoseconds := budgetMs * 1_000_000;
            && Param(url, room, "engine") == Some(engine)
            && Param(url, room, "latency_budget_ms").Some?
            && ParseLatencyBudget(Param(url, room, "latency_budget_ms").value, maxBudget)
               == Ok(if nanoseconds < maxBudget then nanoseconds else maxBudget)
  {
    ParamOfURL(base, engine, budgetMs, room, ENGINE);
    ParamOfURL(base, engine, budgetMs, room, BUDGET);
    CleanQuery(engine, budgetMs);
    NoFragment(engine, budgetMs);
    if engine == "" {
      BudgetArrives(budgetMs);
    } else {
      BothArrive(engine, budgetMs);
    }
    AtoiItoa(budgetMs);
    ExplicitBudget(Itoa(budgetMs), budgetMs, maxBudget);
  }

  /** The request line without a query. */
  function BareLine(): string {
    "POST" + [' '] + "/predict" + [' '] + VERSION
  }

  /** Without an engine and a budget, the defaults of the load generator, the request gets to
      the handler with both parameters empty, and its budget is ten seconds. */
  lemma DefaultsArrive(base: string, budgetMs: int, room: nat, maxBudget: int)
    requires Origin(base) && budgetMs <= 0 && Sum(Width, BareLine()) <= room
    ensures var url := BuildPredictURL(base, "", budgetMs);
            && Param(url, room, "engine") == Some("") && Param(url, room, "latency_budget_ms") == Some("")
            && ParseLatencyBudget("", maxBudget) == Ok(10_000_000_000)
  {
    LineWithoutQuery(base);
    BareLineIsReceived(room);
    NothingParsed();
  }

  lemma BareLineIsReceived(room: nat)
    requires Sum(Width, BareLine()) <= room
    ensures ReceivedQuery(BareLine(), room) == Some("")
  {
    AfterMethod("/predict");
    PathIsPlain();
    CutNone("/predict", '?');
    ReceivedFrom(BareLine(), "/predict", "", room);
  }

  lemma PathIsPlain()
    ensures '?' !in "/predict" && ' ' !in "/predict"
  {
  }

  lemma NothingParsed()
    ensures ParseQuery("") == []
  {
    ParseOnePiece("");
  }

  lemma PathOnly(s: string)
    requires IsHttp(s) && '/' !in s[7..]
    ensures IsHttp(s + "/predict") && FromPath((s + "/predict")[7..]) == "/predict"
  {
    var u := s + "/predict";
    assert u[..7] == s[..7] && u[4..7] == s[4..7];
    assert u[7..] == s[7..] + ['/'] + "predict";
    PathFollowsHost(s[7..], "predict");
    assert ['/'] + "predict" == "/predict";
  }

  lemma LineWithoutQuery(base: string)
    requires Origin(base)
    ensures RequestLine(TrimSlashes(base) + "/predict") == Some(BareLine())
  {
    OriginTrimmed(base);
    OriginPath(base);
    CutNone(TrimSlashes(base) + "/predict", '#');
    PathOnly(TrimSlashes(base));
  }

  lemma ExplicitBudget(raw: string, ms: int, maxBudget: int)
    requires Atoi(raw) == Some(ms) && 0 < ms <= MAX_INT64 / MILLISECOND
    ensures ParseLatencyBudget(raw, maxBudget) == Ok(Min(ms * MILLISECOND, maxBudget))
  {
    assert raw != "";
  }
}
