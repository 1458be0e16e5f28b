/** The scenario language of the dummy backend. */
module Scenario {
  import opened PcieTypes
  import opened Text
  import opened CNumbers
  import opened CsvExport

  const BUFFER_SIZE := 256
  const KEY_SIZE := 32

  // ---------------------------------------------------------------------------------------------
  // Numbers
  // ---------------------------------------------------------------------------------------------

  function ParseU32(value: string, def: uint32): uint32 {
    if value == "" then def
    else
      var r := Strtoul(value, true);
      if r.rest == "" then r.value % 0x1_0000_0000 else def
  }

  /** A number of nanoseconds; the first letter after it may name a unit. */
  function ParseDuration(value: string, def: uint64): uint64 {
    if value == "" then def
    else
      var r := Strtoul(value, false);
      if !r.ok then def
      else if r.rest == "" then r.value
      else
        var unit := Lower(r.rest[0]);
        if unit == 'n' then r.value
        else if unit == 'u' then r.value * 1000 % 0x1_0000_0000_0000_0000
        else if unit == 'm' then r.value * 1_000_000 % 0x1_0000_0000_0000_0000
        else if unit == 's' then r.value * 1_000_000_000 % 0x1_0000_0000_0000_0000
        else def
  }

  // ---------------------------------------------------------------------------------------------
  // Trimming in place
  // ---------------------------------------------------------------------------------------------

  predicate Terminated(b: seq<char>) {
    '\0' in b
  }

  lemma {:induction false} CStringEnds(b: seq<char>)
    requires Terminated(b)
    ensures |CString(b)| < |b| && b[|CString(b)|] == '\0' && CString(b) == b[..|CString(b)|] && '\0' !in CString(b)
  {
    if b[0] != '\0' {
      assert '\0' in b[1..];
      CStringEnds(b[1..]);
    }
  }

  lemma {:induction false} CStringIs(b: seq<char>, n: nat)
    requires n < |b| && b[n] == '\0' && '\0' !in b[..n]
    ensures CString(b) == b[..n]
  {
    if n > 0 {
      assert b[0] == b[..n][0];
      assert b[1..][..n - 1] == b[..n][1..];
      CStringIs(b[1..], n - 1);
    }
  }

  /** memmove of a string to the front of its buffer. */
  method MoveToFront(s: array<char>, start: nat, length: nat)
    requires start + length < s.Length
    modifies s
    ensures s[..] == old(s[start..start + length + 1]) + old(s[length + 1..])
  {
    var i := 0;
    while i <= length
      invariant 0 <= i <= length + 1
      invariant forall k :: 0 <= k < i ==> s[k] == old(s[start + k])
      invariant forall k :: i <= k < s.Length ==> s[k] == old(s[k])
    {
      s[i] := s[start + i];
      i := i + 1;
    }
  }

  method LeadingSpaces(s: array<char>) returns (start: nat)
    requires Terminated(s[..])
    ensures start <= |CString(s[..])| && TrimLeft(CString(s[..])) == CString(s[..])[start..]
  {
    ghost var text := CString(s[..]);
    CStringEnds(s[..]);
    start := 0;
    while s[start] != '\0' && IsSpace(s[start])
      invariant 0 <= start <= |text|
      invariant forall i :: 0 <= i < start ==> IsSpace(text[i])
      decreases |text| - start
    {
      start := start + 1;
    }
    TrimLeftIs(text, start);
  }

  method DropFront(s: array<char>, start: nat)
    requires Terminated(s[..]) && start <= |CString(s[..])|
    modifies s
    ensures Terminated(s[..]) && CString(s[..]) == old(CString(s[..])[start..])
  {
    ghost var left := CString(s[..])[start..];
    CStringEnds(s[..]);
    assert s[start..][..|left|] == left && s[start..][|left|] == '\0';
    CStringIs(s[start..], |left|);
    MoveToFront(s, start, |CString(s[start..])|);
    assert s[..|left|] == left && s[..][|left|] == '\0';
    CStringIs(s[..], |left|);
  }

  method CutRight(s: array<char>)
    requires Terminated(s[..])
    modifies s
    ensures Terminated(s[..]) && CString(s[..]) == TrimRight(old(CString(s[..])))
  {
    ghost var text := CString(s[..]);
    CStringEnds(s[..]);
    var end := |CString(s[..])|;
    while end > 0 && IsSpace(s[end - 1])
      invariant 0 <= end <= |text|
      invariant forall i :: end <= i < |text| ==> IsSpace(text[i])
    {
      end := end - 1;
    }
    TrimRightIs(text, end);
    s[end] := '\0';
    assert s[..end] == text[..end] && s[..][end] == '\0';
    CStringIs(s[..], end);
  }

  method TrimWhitespace(s: array<char>)
    requires Terminated(s[..])
    modifies s
    ensures Terminated(s[..]) && CString(s[..]) == Trim(old(CString(s[..])))
  {
    var start := LeadingSpaces(s);
    if start != 0 {
      DropFront(s, start);
    }
    CutRight(s);
  }

  // ---------------------------------------------------------------------------------------------
  // Profiles
  // ---------------------------------------------------------------------------------------------

  datatype Link = Link(speed: uint32, width: uint32)

  /** sscanf of "%ux%u"; what follows the second number is ignored. */
  function ScanPair(s: string): Option<Link> {
    var a := Strtoul(s, false);
    if !a.ok || a.rest == "" || a.rest[0] != 'x' then None
    else
      var b := Strtoul(a.rest[1..], false);
      if !b.ok then None else Some(Link(a.value % 0x1_0000_0000, b.value % 0x1_0000_0000))
  }

  /** sscanf of "gen%ux%u", and then of "%ux%u". */
  function ScanLink(key: string): Option<Link> {
    var long := if "gen" <= key then ScanPair(key[3..]) else None;
    if long.Some? then long else ScanPair(key)
  }

  /** The profiles with a name of their own. */
  function NamedLink(key: string): Option<Link> {
    if key == "gen5x1" || key == "5x1" then Some(Link(5, 1))
    else if key == "gen6x4" || key == "6x4" then Some(Link(6, 4))
    else if key == "gen7x8" || key == "7x8" then Some(Link(7, 8))
    else if key == "gen8x16" || key == "8x16" then Some(Link(8, 16))
    else if key == "gen8x8" || key == "8x8" then Some(Link(8, 8))
    else None
  }

  function ProfileFromName(name: string): Option<Link> {
    var key := ToLower(if |name| < KEY_SIZE then name else name[..KEY_SIZE - 1]);
    var link := if NamedLink(key).Some? then NamedLink(key) else ScanLink(key);
    if link.Some? && 1 <= link.value.speed <= 8 && 1 <= link.value.width <= 16 then link else None
  }

  // ---------------------------------------------------------------------------------------------
  // The parser
  // ---------------------------------------------------------------------------------------------

  /** The settings of the dummy backend; the drop rate is kept as its text. */
  datatype Config = Config(maxSpeed: uint32, negSpeed: uint32, maxWidth: uint32, negWidth: uint32, latencyNs: uint64,
                           jitterNs: uint64, tokensPerSecond: uint32, burstSize: uint32, dropRate: string)

  predicate IsSeparator(c: char) {
    c == ',' || c == ';'
  }

  function PieceEnd(s: string): (n: nat)
    ensures n <= |s| && (n < |s| ==> IsSeparator(s[n]))
  {
    if s == "" || IsSeparator(s[0]) then 0 else 1 + PieceEnd(s[1..])
  }

  /** The tokens strtok finds: the pieces between separators that are not empty. */
  function Tokens(s: string): seq<string>
    decreases |s|
  {
    if s == "" then []
    else if IsSeparator(s[0]) then Tokens(s[1..])
    else
      var n := PieceEnd(s);
      [s[..n]] + Tokens(s[n..])
  }

  function IndexOf(s: string, c: char): (n: nat)
    ensures n <= |s| && (n < |s| ==> s[n] == c)
  {
    if s == "" || s[0] == c then 0 else 1 + IndexOf(s[1..], c)
  }

  /** The configuration while it is read, and the profile name found so far. */
  datatype State = State(cfg: Config, profile: Option<string>)

  function SetKey(st: State, key: string, value: string): State {
    var cfg := st.cfg;
    if key == "profile" || key == "name" then st.(profile := Some(value))
    else if key == "latency" || key == "latency_ns" then
      st.(cfg := cfg.(latencyNs := ParseDuration(value, cfg.latencyNs)))
    else if key == "jitter" || key == "jitter_ns" then
      st.(cfg := cfg.(jitterNs := ParseDuration(value, cfg.jitterNs)))
    else if key == "tps" || key == "tokens_per_second" then
      st.(cfg := cfg.(tokensPerSecond := ParseU32(value, cfg.tokensPerSecond)))
    else if key == "burst" || key == "burst_size" then
      st.(cfg := cfg.(burstSize := ParseU32(value, cfg.burstSize)))
    else if key == "drop_rate" then st.(cfg := cfg.(dropRate := value))
    else st
  }

  /** One token: a setting with a key, or a bare profile name if none was found before. */
  function SetToken(st: State, token: string): State {
    var part := Trim(token);
    if part == "" then st
    else
      var eq := IndexOf(part, '=');
      if eq < |part| then SetKey(st, Trim(part[..eq]), Trim(part[eq + 1..]))
      else if st.profile.None? then st.(profile := Some(part))
      else st
  }

  function SetTokens(st: State, tokens: seq<string>): State
    decreases |tokens|
  {
    if tokens == [] then st else SetTokens(SetToken(st, tokens[0]), tokens[1..])
  }

  function WithLink(cfg: Config, link: Link): Config {
    cfg.(maxSpeed := link.speed, negSpeed := link.speed, maxWidth := link.width, negWidth := link.width)
  }

  /** The profile, resolved after all tokens. */
  function Resolve(st: State): Config {
    if st.profile.None? || st.profile.value == "" then st.cfg
    else
      match ProfileFromName(st.profile.value)
      case None => st.cfg
      case Some(link) => WithLink(st.cfg, link)
  }

  function Parse(scenario: string, cfg: Config): Config {
    Resolve(SetTokens(State(cfg, None), Tokens(Snprintf(BUFFER_SIZE, scenario))))
  }

  /** The parsing loop: strtok over the buffer, one token at a time. */
  method ApplyScenario(scenario: string, cfg: Config) returns (r: Config)
    ensures r == Parse(scenario, cfg)
  {
    if scenario == "" {
      return cfg;
    }
    var st := ReadTokens(State(cfg, None), Snprintf(BUFFER_SIZE, scenario));
    r := Resolve(st);
  }

  method ReadTokens(start: State, buffer: string) returns (st: State)
    ensures st == SetTokens(start, Tokens(buffer))
  {
    st := start;
    ghost var total := SetTokens(start, Tokens(buffer));
    var at := 0;
    while at < |buffer|
      invariant 0 <= at <= |buffer|
      invariant SetTokens(st, Tokens(buffer[at..])) == total
    {
      var n;
      st, n := ReadToken(st, buffer[at..]);
      assert buffer[at..][n..] == buffer[at + n..];
      at := at + n;
    }
  }

  /** Skips one separator, or reads one token. */
  method ReadToken(st: State, s: string) returns (next: State, n: nat)
    requires s != ""
    ensures 0 < n <= |s| && SetTokens(next, Tokens(s[n..])) == SetTokens(st, Tokens(s))
  {
    if IsSeparator(s[0]) {
      return st, 1;
    }
    n := PieceEnd(s);
    NextToken(st, s);
    next := SetToken(st, s[..n]);
  }

  lemma NextToken(st: State, s: string)
    requires s != "" && !IsSeparator(s[0])
    ensures var n := PieceEnd(s);
            n > 0 && SetTokens(st, Tokens(s)) == SetTokens(SetToken(st, s[..n]), Tokens(s[n..]))
  {
    var n := PieceEnd(s);
    assert ([s[..n]] + Tokens(s[n..]))[1..] == Tokens(s[n..]);
  }
}
