/** Scenarios as the GUI prints them, and why the backend reads them back. */
module ScenarioSpec {
  import opened PcieTypes
  import opened Text
  import opened CNumbers
  import opened CsvExport
  import opened Scenario

  datatype Setting =
    | Profile(speed: uint32, width: uint32)
    | Latency(ns: uint64)
    | Tps(rate: uint32)
    | Burst(size: uint32)
    | Jitter(ns: uint64)
    | DropRate(text: string)
  {
    /** A profile that exists; a drop rate whose text has no separator or white space in it. */
    predicate Valid() {
      match this
      case Profile(s, w) => 1 <= s <= 8 && 1 <= w <= 16
      case DropRate(t) => PlainText(t)
      case _ => true
    }

    function Key(): string {
      match this
      case Profile(_, _) => "profile"
      case Latency(_) => "latency"
      case Tps(_) => "tps"
      case Burst(_) => "burst"
      case Jitter(_) => "jitter"
      case DropRate(_) => "drop_rate"
    }

    function Value(): string {
      match this
      case Profile(s, w) => ProfileName(s, w)
      case Latency(n) => Dec(n) + "ns"
      case Tps(n) => Dec(n)
      case Burst(n) => Dec(n)
      case Jitter(n) => Dec(n) + "ns"
      case DropRate(t) => t
    }

    function Print(): string {
      Key() + "=" + Value()
    }
  }

  predicate PlainChar(c: char) {
    c != ' ' && !(9 <= c as int <= 13) && c != ',' && c != ';'
  }

  function ProfileName(speed: nat, width: nat): string {
    "gen" + Dec(speed) + "x" + Dec(width)
  }

  function Printed(settings: seq<Setting>): (parts: seq<string>)
    ensures |parts| == |settings|
  {
    seq(|settings|, i requires 0 <= i < |settings| => settings[i].Print())
  }

  /** A scenario: its settings, joined by commas. */
  function Spec(settings: seq<Setting>): string
    requires settings != []
  {
    Join(Printed(settings))
  }

  // ---------------------------------------------------------------------------------------------
  // What settings mean
  // ---------------------------------------------------------------------------------------------

  /** A setting changes its own fields and no others. */
  function Apply(cfg: Config, s: Setting): Config {
    match s
    case Profile(speed, width) => WithLink(cfg, Link(speed, width))
    case Latency(n) => cfg.(latencyNs := n)
    case Tps(n) => cfg.(tokensPerSecond := n)
    case Burst(n) => cfg.(burstSize := n)
    case Jitter(n) => cfg.(jitterNs := n)
    case DropRate(t) => cfg.(dropRate := t)
  }

  /** One setting after another. */
  function ApplyAll(cfg: Config, settings: seq<Setting>): Config
    decreases |settings|
  {
    if settings == [] then cfg else ApplyAll(Apply(cfg, settings[0]), settings[1..])
  }

  predicate AllValid(settings: seq<Setting>) {
    forall i :: 0 <= i < |settings| ==> settings[i].Valid()
  }

  // ---------------------------------------------------------------------------------------------
  // Profile names
  // ---------------------------------------------------------------------------------------------

  lemma ScanPairIs(s: string, speed: uint32, width: uint32, w: string, rest: string)
    requires Strtoul(s, false) == Read(true, speed, "x" + w) && Strtoul(w, false) == Read(true, width, rest)
    ensures ScanPair(s) == Some(Link(speed, width))
  {
    assert ("x" + w)[0] == 'x' && ("x" + w)[1..] == w;
  }

  lemma ScanPairOf(speed: uint32, width: uint32)
    ensures ScanPair(Dec(speed) + "x" + Dec(width)) == Some(Link(speed, width))
  {
    var w := Dec(width);
    assert Dec(speed) + "x" + w == Dec(speed) + ("x" + w) && w + "" == w;
    StrtoulStopsAtX(speed, "x" + w);
    StrtoulOfNumeral(width, false, "");
    ScanPairIs(Dec(speed) + "x" + w, speed, width, w, "");
  }

  lemma StrtoulStopsAtX(n: uint32, rest: string)
    requires rest != "" && rest[0] == 'x'
    ensures Strtoul(Dec(n) + rest, false) == Read(true, n, rest)
  {
    var d := Dec(n);
    NumeralDigits(n, Decimal);
    NumeralRoundTrip(n, Decimal);
    assert DigitOf(d[0]) < 10 && (d + rest)[0] == d[0];
    ReadDigitsOf(d, Decimal, rest);
  }

  lemma ScanLinkIs(pair: string, link: Link)
    requires ScanPair(pair) == Some(link) && pair != "" && pair[0] != 'g'
    ensures ScanLink("gen" + pair) == Some(link) && ScanLink(pair) == Some(link)
  {
    assert ("gen" + pair)[3..] == pair && "gen" <= "gen" + pair;
    assert !("gen" <= pair);
  }

  lemma ScanLinkFor(a: string, b: string, link: Link)
    requires ScanPair(a + "x" + b) == Some(link) && a != "" && a[0] != 'g'
    ensures ScanLink("gen" + a + "x" + b) == Some(link) && ScanLink(a + "x" + b) == Some(link)
  {
    ScanLinkIs(a + "x" + b, link);
    assert "gen" + a + "x" + b == "gen" + (a + "x" + b);
  }

  lemma ScanLinkOf(speed: uint32, width: uint32)
    ensures ScanLink(ProfileName(speed, width)) == Some(Link(speed, width))
    ensures ScanLink(Dec(speed) + "x" + Dec(width)) == Some(Link(speed, width))
  {
    ScanPairOf(speed, width);
    StartsWithDigit(speed);
    ScanLinkFor(Dec(speed), Dec(width), Link(speed, width));
  }

  lemma StartsWithDigit(n: nat)
    ensures Dec(n) != "" && Dec(n)[0] != 'g'
  {
    NumeralDigits(n, Decimal);
    assert DigitOf(Dec(n)[0]) < 10;
  }

  /** A profile that has a name of its own is named as the general form would name it. */
  lemma NamedLinkHasItsName(key: string, speed: string, width: string, l: Link)
    requires NamedLink(key) == Some(l) && speed == Dec(l.speed) && width == Dec(l.width)
    ensures key == "gen" + speed + "x" + width || key == speed + "x" + width
  {
    SmallNumerals();
  }

  /** The profiles with names of their own are those the general form reads from the same names. */
  lemma NamedLinkIsScanned(key: string)
    requires NamedLink(key).Some?
    ensures ScanLink(key) == NamedLink(key)
  {
    var l := NamedLink(key).value;
    NamedLinkHasItsName(key, Dec(l.speed), Dec(l.width), l);
    ScanLinkOf(l.speed, l.width);
  }

  lemma SmallNumerals()
    ensures Dec(1) == "1" && Dec(4) == "4" && Dec(5) == "5" && Dec(6) == "6" && Dec(7) == "7" && Dec(8) == "8"
    ensures Dec(16) == "16"
  {
    assert Numeral(16, Decimal) == Numeral(1, Decimal) + [DigitChar(6)];
  }

  /** Every profile name is read back. */
  lemma ProfileRoundTrip(speed: uint32, width: uint32)
    requires 1 <= speed <= 8 && 1 <= width <= 16
    ensures ProfileFromName(ProfileName(speed, width)) == Some(Link(speed, width))
  {
    var name := ProfileName(speed, width);
    ScanLinkOf(speed, width);
    NameIsKept(speed, width);
    if NamedLink(name).Some? {
      NamedLinkIsScanned(name);
    }
    ScannedProfile(name, Link(speed, width));
  }

  lemma ScannedProfile(name: string, link: Link)
    requires ToLower(name) == name && |name| < KEY_SIZE && ScanLink(name) == Some(link)
    requires NamedLink(name).Some? ==> NamedLink(name) == Some(link)
    requires 1 <= link.speed <= 8 && 1 <= link.width <= 16
    ensures ProfileFromName(name) == Some(link)
  {
  }

  lemma NameIsKept(speed: uint32, width: uint32)
    requires speed <= 8 && width <= 16
    ensures ToLower(ProfileName(speed, width)) == ProfileName(speed, width) && |ProfileName(speed, width)| < KEY_SIZE
  {
    var name := ProfileName(speed, width);
    assert Pow10(1) == 10 && Pow10(2) == 100;
    NumeralLength(speed, Decimal, 1);
    NumeralLength(width, Decimal, 2);
    forall i | 0 <= i < |name| ensures Lower(name[i]) == name[i] {
      NameChar(speed, width, i);
    }
  }

  lemma NameChar(speed: nat, width: nat, i: nat)
    requires i < |ProfileName(speed, width)|
    ensures var c := ProfileName(speed, width)[i]; DigitOf(c) < 10 || c in "genx"
  {
    NumeralDigits(speed, Decimal);
    NumeralDigits(width, Decimal);
    var n, a, b := ProfileName(speed, width), Dec(speed), Dec(width);
    if i < 3 {
      assert n[i] == "gen"[i];
    } else if i < 3 + |a| {
      assert n[i] == a[i - 3];
    } else if i > 3 + |a| {
      assert n[i] == b[i - 4 - |a|];
    }
  }

  // ---------------------------------------------------------------------------------------------
  // One setting
  // ---------------------------------------------------------------------------------------------

  lemma ParseU32RoundTrip(n: uint32, def: uint32)
    ensures ParseU32(Dec(n), def) == n
  {
    StrtoulOfNumeral(n, true, "");
    assert Dec(n) + "" == Dec(n);
  }

  lemma ParseDurationRoundTrip(n: uint64, def: uint64)
    ensures ParseDuration(Dec(n) + "ns", def) == n
  {
    StrtoulOfNumeral(n, false, "ns");
  }

  /** The state after a setting, before profiles are resolved. */
  function Assign(st: State, s: Setting): State {
    if s.Profile? then st.(profile := Some(s.Value())) else st.(cfg := Apply(st.cfg, s))
  }

  lemma SetNumber(st: State, value: string, n: uint32)
    requires ParseU32(value, st.cfg.tokensPerSecond) == ParseU32(value, st.cfg.burstSize) == n
    ensures SetKey(st, "tps", value) == Assign(st, Tps(n)) && SetKey(st, "burst", value) == Assign(st, Burst(n))
  {
  }

  lemma SetDuration(st: State, value: string, n: uint64)
    requires ParseDuration(value, st.cfg.latencyNs) == ParseDuration(value, st.cfg.jitterNs) == n
    ensures SetKey(st, "latency", value) == Assign(st, Latency(n))
    ensures SetKey(st, "jitter", value) == Assign(st, Jitter(n))
  {
  }

  lemma SetKeyAssigns(st: State, s: Setting)
    ensures SetKey(st, s.Key(), s.Value()) == Assign(st, s)
  {
    match s
    case Profile(_, _) =>
    case DropRate(_) =>
    case Tps(n) => NumberIsSet(st, n);
    case Burst(n) => NumberIsSet(st, n);
    case Latency(n) => DurationIsSet(st, n);
    case Jitter(n) => DurationIsSet(st, n);
  }

  lemma NumberIsSet(st: State, n: uint32)
    ensures SetKey(st, "tps", Dec(n)) == Assign(st, Tps(n)) && SetKey(st, "burst", Dec(n)) == Assign(st, Burst(n))
  {
    ParseU32RoundTrip(n, st.cfg.tokensPerSecond);
    ParseU32RoundTrip(n, st.cfg.burstSize);
    SetNumber(st, Dec(n), n);
  }

  lemma DurationIsSet(st: State, n: uint64)
    ensures SetKey(st, "latency", Dec(n) + "ns") == Assign(st, Latency(n))
    ensures SetKey(st, "jitter", Dec(n) + "ns") == Assign(st, Jitter(n))
  {
    ParseDurationRoundTrip(n, st.cfg.latencyNs);
    ParseDurationRoundTrip(n, st.cfg.jitterNs);
    SetDuration(st, Dec(n) + "ns", n);
  }

  predicate PlainText(t: string) {
    forall i :: 0 <= i < |t| ==> PlainChar(t[i])
  }

  lemma DecIsPlain(n: nat)
    ensures PlainText(Dec(n))
  {
    NumeralDigits(n, Decimal);
  }

  lemma ValueIsPlain(s: Setting)
    requires s.Valid()
    ensures PlainText(s.Value())
  {
    match s
    case Profile(speed, width) =>
      forall i | 0 <= i < |s.Value()| ensures PlainChar(s.Value()[i]) {
        NameChar(speed, width, i);
      }
    case Latency(n) => DecIsPlain(n);
    case Tps(n) => DecIsPlain(n);
    case Burst(n) => DecIsPlain(n);
    case Jitter(n) => DecIsPlain(n);
    case DropRate(_) =>
  }

  lemma KeyIsPlain(s: Setting)
    ensures s.Key() != "" && PlainText(s.Key()) && '=' !in s.Key()
  {
  }

  lemma PlainIsTrimmed(t: string)
    requires PlainText(t)
    ensures Trim(t) == t
  {
    assert t != "" ==> PlainChar(t[0]) && PlainChar(t[|t| - 1]);
  }

  lemma {:induction false} IndexOfFirst(a: string, c: char, rest: string)
    requires c !in a
    ensures IndexOf(a + [c] + rest, c) == |a|
  {
    if a != "" {
      assert (a + [c] + rest)[1..] == a[1..] + [c] + rest;
      IndexOfFirst(a[1..], c, rest);
    }
  }

  /** A plain key, an equals sign and a plain value are read as such. */
  lemma SetTokenOf(st: State, key: string, value: string)
    requires key != "" && PlainText(key) && '=' !in key && PlainText(value)
    ensures SetToken(st, key + "=" + value) == SetKey(st, key, value)
  {
    var part := key + "=" + value;
    assert PlainText(part) by {
      forall i | 0 <= i < |part| ensures PlainChar(part[i]) {
        if i < |key| { assert part[i] == key[i]; } else if i > |key| { assert part[i] == value[i - |key| - 1]; }
      }
    }
    PlainIsTrimmed(part);
    IndexOfFirst(key, '=', value);
    assert part == key + ['='] + value;
    assert part[..|key|] == key && part[|key| + 1..] == value;
    PlainIsTrimmed(key);
    PlainIsTrimmed(value);
  }

  lemma SetTokenAssigns(st: State, s: Setting)
    requires s.Valid()
    ensures SetToken(st, s.Print()) == Assign(st, s)
  {
    KeyIsPlain(s);
    ValueIsPlain(s);
    SetTokenOf(st, s.Key(), s.Value());
    SetKeyAssigns(st, s);
  }

  /** Resolving profiles after all tokens gives what resolving each at once would give. */
  lemma ResolveCommutes(st: State, s: Setting)
    requires s.Valid()
    ensures Resolve(Assign(st, s)) == Apply(Resolve(st), s)
  {
    if s.Profile? {
      ProfileRoundTrip(s.speed, s.width);
    }
  }

  // ---------------------------------------------------------------------------------------------
  // Whole scenarios
  // ---------------------------------------------------------------------------------------------

  predicate Piece(t: string) {
    t != "" && forall i :: 0 <= i < |t| ==> t[i] != ',' && t[i] != ';'
  }

  lemma {:induction false} PieceEndOf(t: string, rest: string)
    requires (forall i :: 0 <= i < |t| ==> !IsSeparator(t[i])) && (rest == "" || IsSeparator(rest[0]))
    ensures PieceEnd(t + rest) == |t|
  {
    if t == "" {
      assert "" + rest == rest;
    } else {
      assert (t + rest)[1..] == t[1..] + rest;
      PieceEndOf(t[1..], rest);
    }
  }

  lemma TokensFirst(t: string, rest: string)
    requires Piece(t) && (rest == "" || IsSeparator(rest[0]))
    ensures Tokens(t + rest) == [t] + Tokens(rest)
  {
    PieceEndOf(t, rest);
    var s := t + rest;
    assert s[0] == t[0] && s[..|t|] == t && s[|t|..] == rest;
  }

  lemma {:induction false} TokensOfJoin(parts: seq<string>)
    requires parts != [] && forall i :: 0 <= i < |parts| ==> Piece(parts[i])
    ensures Tokens(Join(parts)) == parts
  {
    if |parts| == 1 {
      TokensFirst(parts[0], "");
      assert parts[0] + "" == parts[0];
    } else {
      var more := Join(parts[1..]);
      TokensOfJoin(parts[1..]);
      TokensFirst(parts[0], [','] + more);
      assert Join(parts) == parts[0] + ([','] + more);
      assert ([','] + more)[1..] == more;
    }
  }

  lemma PrintIsPiece(s: Setting)
    requires s.Valid()
    ensures Piece(s.Print())
  {
    KeyIsPlain(s);
    ValueIsPlain(s);
    var t, k, v := s.Print(), s.Key(), s.Value();
    forall i | 0 <= i < |t| ensures !IsSeparator(t[i]) {
      if i < |k| { assert t[i] == k[i]; } else if i > |k| { assert t[i] == v[i - |k| - 1]; }
    }
  }

  lemma {:induction false} SetTokensApplies(st: State, settings: seq<Setting>)
    requires AllValid(settings)
    ensures Resolve(SetTokens(st, Printed(settings))) == ApplyAll(Resolve(st), settings)
    decreases |settings|
  {
    if settings != [] {
      var token, more := settings[0].Print(), settings[1..];
      TokenApplies(st, settings[0], token);
      SetTokensApplies(SetToken(st, token), more);
      SetTokensFirst(st, token, Printed(more));
      PrintedFirst(settings);
    }
  }

  lemma {:induction false} PrintedFirst(settings: seq<Setting>)
    requires settings != []
    ensures Printed(settings) == [settings[0].Print()] + Printed(settings[1..])
  {
    var more := Printed(settings[1..]);
    forall i | 0 < i < |settings| ensures Printed(settings)[i] == more[i - 1] {
      assert settings[1..][i - 1] == settings[i];
    }
  }

  lemma TokenApplies(st: State, s: Setting, token: string)
    requires s.Valid() && token == s.Print()
    ensures Resolve(SetToken(st, token)) == Apply(Resolve(st), s)
  {
    SetTokenAssigns(st, s);
    ResolveCommutes(st, s);
  }

  lemma SetTokensFirst(st: State, token: string, more: seq<string>)
    ensures SetTokens(st, [token] + more) == SetTokens(SetToken(st, token), more)
  {
    assert ([token] + more)[1..] == more;
  }

  /**
   Reading back a printed scenario: whatever its settings and however often they repeat, the backend ends
   with the configuration that the settings describe one after another.
   */
  lemma ScenarioRoundTrip(settings: seq<Setting>, cfg: Config)
    requires settings != [] && AllValid(settings) && |Spec(settings)| < BUFFER_SIZE
    ensures Parse(Spec(settings), cfg) == ApplyAll(cfg, settings)
  {
    forall i | 0 <= i < |settings| ensures Piece(Printed(settings)[i]) {
      PrintIsPiece(settings[i]);
    }
    TokensOfJoin(Printed(settings));
    SetTokensApplies(State(cfg, None), settings);
  }

  // ---------------------------------------------------------------------------------------------
  // Every spelling
  // ---------------------------------------------------------------------------------------------

  /** The keys a setting may be written with. */
  function KeysOf(s: Setting): seq<string> {
    match s
    case Profile(_, _) => ["profile", "name"]
    case Latency(_) => ["latency", "latency_ns"]
    case Tps(_) => ["tps", "tokens_per_second"]
    case Burst(_) => ["burst", "burst_size"]
    case Jitter(_) => ["jitter", "jitter_ns"]
    case DropRate(_) => ["drop_rate"]
  }

  /** A token: a setting under one of its keys or the name of a profile, with white space around; or white space. */
  datatype Spelling =
    | Keyed(a: string, key: string, b: string, c: string, setting: Setting, d: string)
    | Bare(a: string, speed: uint32, width: uint32, d: string)
    | Empty(a: string)
  {
    predicate Valid() {
      match this
      case Keyed(a, key, b, c, s, d) => Blank(a) && Blank(b) && Blank(c) && Blank(d) && s.Valid() && key in KeysOf(s)
      case Bare(a, speed, width, d) => Blank(a) && Blank(d) && 1 <= speed <= 8 && 1 <= width <= 16
      case Empty(a) => Blank(a) && a != ""
    }

    function Text(): string {
      match this
      case Keyed(a, key, b, c, s, d) => a + (key + b + "=" + c + s.Value()) + d
      case Bare(a, speed, width, d) => a + ProfileName(speed, width) + d
      case Empty(a) => a
    }
  }

  /** What a token means after others: the name of a profile alone counts only if no profile was found before. */
  function Applied(cfg: Config, found: bool, sp: Spelling): Config {
    match sp
    case Keyed(_, _, _, _, s, _) => Apply(cfg, s)
    case Bare(_, speed, width, _) => if found then cfg else Apply(cfg, Profile(speed, width))
    case Empty(_) => cfg
  }

  predicate Finds(sp: Spelling) {
    sp.Bare? || (sp.Keyed? && sp.setting.Profile?)
  }

  function AppliedAll(cfg: Config, found: bool, sps: seq<Spelling>): Config
    decreases |sps|
  {
    if sps == [] then cfg else AppliedAll(Applied(cfg, found, sps[0]), found || Finds(sps[0]), sps[1..])
  }

  lemma PlainIsTrimmedText(t: string)
    requires PlainText(t)
    ensures Trimmed(t)
  {
    assert t != "" ==> PlainChar(t[0]) && PlainChar(t[|t| - 1]);
  }

  /** The parts of a trimmed token with a key are trimmed each. */
  lemma KeyedParts(st: State, key: string, b: string, c: string, value: string)
    requires key != "" && PlainText(key) && '=' !in key && Blank(b) && Blank(c) && PlainText(value)
    requires value == "" ==> c == ""
    ensures Trimmed(key + b + "=" + c + value)
    ensures SetToken(st, key + b + "=" + c + value) == SetKey(st, key, value)
  {
    var left, right := key + b, c + value;
    var part := left + ['='] + right;
    assert key + b + "=" + c + value == part;
    assert part[0] == key[0] && PlainChar(key[0]);
    assert part[|part| - 1] == if value == "" then '=' else value[|value| - 1];
    assert value != "" ==> PlainChar(value[|value| - 1]);
    TrimOfTrimmed(part);
    BlankHasNoEquals(b);
    IndexOfFirst(left, '=', right);
    assert part[..|left|] == left && part[|left| + 1..] == right;
    PlainIsTrimmedText(key);
    PlainIsTrimmedText(value);
    TrimPadded("", key, b);
    TrimPadded(c, value, "");
    assert "" + key + b == left && c + value + "" == right;
  }

  lemma BlankHasNoEquals(b: string)
    requires Blank(b)
    ensures '=' !in b
  {
  }

  lemma TrimmedTokenIsSet(st: State, token: string)
    ensures Trimmed(Trim(token)) && SetToken(st, token) == SetToken(st, Trim(token))
  {
    TrimIsTrimmed(token);
    TrimOfTrimmed(Trim(token));
  }

  lemma KeyedIsSet(st: State, a: string, key: string, b: string, c: string, value: string, d: string)
    requires Blank(a) && Blank(b) && Blank(c) && Blank(d)
    requires key != "" && PlainText(key) && '=' !in key && PlainText(value)
    ensures SetToken(st, a + (key + b + "=" + c + value) + d) == SetKey(st, key, value)
  {
    var token := a + (key + b + "=" + c + value) + d;
    if value == "" {
      KeyedParts(st, key, b, "", "");
      TrimPadded(a, key + b + "=" + "" + "", c + d);
      assert token == a + (key + b + "=" + "" + "") + (c + d);
    } else {
      KeyedParts(st, key, b, c, value);
      TrimPadded(a, key + b + "=" + c + value, d);
    }
    TrimmedTokenIsSet(st, token);
  }

  /** Both keys of a setting are read alike. */
  lemma SynonymsAgree(st: State, s: Setting, key: string, value: string)
    requires key in KeysOf(s)
    ensures SetKey(st, key, value) == SetKey(st, s.Key(), value)
  {
    if key != s.Key() {
      SynonymIs(s, key);
    }
  }

  lemma SynonymIs(s: Setting, key: string)
    requires key in KeysOf(s) && key != s.Key()
    ensures match s
            case Profile(_, _) => key == "name"
            case Latency(_) => key == "latency_ns"
            case Tps(_) => key == "tokens_per_second"
            case Burst(_) => key == "burst_size"
            case Jitter(_) => key == "jitter_ns"
            case DropRate(_) => false
  {
  }

  lemma KeysArePlain(s: Setting, key: string)
    requires key in KeysOf(s)
    ensures key != "" && PlainText(key) && '=' !in key
  {
    KeyIsPlain(s);
    if key != s.Key() {
      SynonymIs(s, key);
    }
  }

  lemma BareIsSet(st: State, a: string, speed: uint32, width: uint32, d: string)
    requires Blank(a) && Blank(d) && 1 <= speed <= 8 && 1 <= width <= 16
    ensures SetToken(st, a + ProfileName(speed, width) + d) ==
            if st.profile.None? then st.(profile := Some(ProfileName(speed, width))) else st
  {
    var name := ProfileName(speed, width);
    NameHasNoEquals(speed, width);
    PlainIsTrimmedText(name);
    TrimPadded(a, name, d);
    NoIndex(name, '=');
  }

  lemma NameHasNoEquals(speed: nat, width: nat)
    ensures PlainText(ProfileName(speed, width)) && '=' !in ProfileName(speed, width) && ProfileName(speed, width) != ""
  {
    forall i | 0 <= i < |ProfileName(speed, width)|
      ensures PlainChar(ProfileName(speed, width)[i]) && ProfileName(speed, width)[i] != '='
    {
      NameChar(speed, width, i);
    }
  }

  lemma {:induction false} NoIndex(s: string, c: char)
    requires c !in s
    ensures IndexOf(s, c) == |s|
  {
    if s != "" {
      NoIndex(s[1..], c);
    }
  }

  /** One token, whatever its spelling: what is resolved afterwards, and whether a profile has been found. */
  lemma SpellingApplies(st: State, sp: Spelling)
    requires sp.Valid() && (st.profile.Some? ==> st.profile.value != "")
    ensures var next := SetToken(st, sp.Text());
            && Resolve(next) == Applied(Resolve(st), st.profile.Some?, sp)
            && (next.profile.Some? <==> st.profile.Some? || Finds(sp))
            && (next.profile.Some? ==> next.profile.value != "")
  {
    match sp
    case Keyed(a, key, b, c, s, d) =>
      SynonymsAgree(st, s, key, s.Value());
      KeysArePlain(s, key);
      ValueIsPlain(s);
      KeyedIsSet(st, a, key, b, c, s.Value(), d);
      SetKeyAssigns(st, s);
      ResolveCommutes(st, s);
    case Bare(a, speed, width, d) =>
      BareIsSet(st, a, speed, width, d);
      NameHasNoEquals(speed, width);
      ProfileRoundTrip(speed, width);
    case Empty(a) =>
      TrimPadded(a, "", "");
      assert a + "" + "" == a;
  }

  function TextsOf(sps: seq<Spelling>): (parts: seq<string>)
    ensures |parts| == |sps|
  {
    seq(|sps|, i requires 0 <= i < |sps| => sps[i].Text())
  }

  lemma {:induction false} SpellingsApply(st: State, sps: seq<Spelling>)
    requires (forall i :: 0 <= i < |sps| ==> sps[i].Valid()) && (st.profile.Some? ==> st.profile.value != "")
    ensures Resolve(SetTokens(st, TextsOf(sps))) == AppliedAll(Resolve(st), st.profile.Some?, sps)
    decreases |sps|
  {
    if sps != [] {
      var token, more := sps[0].Text(), sps[1..];
      SpellingApplies(st, sps[0]);
      SpellingsApply(SetToken(st, token), more);
      SetTokensFirst(st, token, TextsOf(more));
      assert TextsOf(sps) == [token] + TextsOf(more);
    }
  }

  /** Separators: commas and semicolons, as many as one likes. */
  predicate Separates(s: string) {
    forall i :: 0 <= i < |s| ==> s[i] == ',' || s[i] == ';'
  }

  /** Tokens with separators before each and after the last; between two tokens there is at least one. */
  function Separated(parts: seq<string>, seps: seq<string>): string
    requires |seps| == |parts| + 1
    decreases |parts|
  {
    if parts == [] then seps[0] else seps[0] + parts[0] + Separated(parts[1..], seps[1..])
  }

  lemma {:induction false} SkipSeparators(sep: string, rest: string)
    requires Separates(sep)
    ensures Tokens(sep + rest) == Tokens(rest)
    decreases |sep|
  {
    if sep == "" {
      assert "" + rest == rest;
    } else {
      assert (sep + rest)[0] == sep[0] && (sep + rest)[1..] == sep[1..] + rest;
      SkipSeparators(sep[1..], rest);
    }
  }

  predicate GoodSeparators(seps: seq<string>) {
    && (forall i :: 0 <= i < |seps| ==> Separates(seps[i]))
    && forall i :: 0 < i < |seps| - 1 ==> seps[i] != ""
  }

  lemma {:induction false} TokensOfSeparated(parts: seq<string>, seps: seq<string>)
    requires |seps| == |parts| + 1 && GoodSeparators(seps) && forall i :: 0 <= i < |parts| ==> Piece(parts[i])
    ensures Tokens(Separated(parts, seps)) == parts
    decreases |parts|
  {
    if parts == [] {
      SkipSeparators(seps[0], "");
      assert seps[0] + "" == seps[0];
    } else {
      var rest := Separated(parts[1..], seps[1..]);
      TokensOfSeparated(parts[1..], seps[1..]);
      StartsWithSeparator(parts[1..], seps[1..]);
      SkipSeparators(seps[0], parts[0] + rest);
      TokensFirst(parts[0], rest);
      assert seps[0] + parts[0] + rest == seps[0] + (parts[0] + rest);
    }
  }

  lemma StartsWithSeparator(parts: seq<string>, seps: seq<string>)
    requires |seps| == |parts| + 1 && Separates(seps[0]) && (parts != [] ==> seps[0] != "")
    ensures Separated(parts, seps) == "" || IsSeparator(Separated(parts, seps)[0])
  {
  }

  lemma SpellingIsPiece(sp: Spelling)
    requires sp.Valid()
    ensures Piece(sp.Text())
  {
    match sp
    case Keyed(a, key, b, c, s, d) =>
      KeysArePlain(s, key);
      ValueIsPlain(s);
      KeyedIsPiece(a, key, b, c, s.Value(), d);
    case Bare(a, speed, width, d) => NameHasNoEquals(speed, width);
    case Empty(a) =>
  }

  lemma KeyedIsPiece(a: string, key: string, b: string, c: string, value: string, d: string)
    requires Blank(a) && Blank(b) && Blank(c) && Blank(d) && PlainText(key) && PlainText(value)
    ensures Piece(a + (key + b + "=" + c + value) + d)
  {
    var token := a + (key + b + "=" + c + value) + d;
    forall x | x in token ensures !IsSeparator(x) {
      assert x in a || x in key || x in b || x == '=' || x in c || x in value || x in d;
    }
  }

  /**
   Every text of such tokens that fits the buffer is read as they mean, one after another: either key of a
   setting, white space anywhere around names and values, commas or semicolons, profiles with or without a key.
   */
  lemma EverySpellingIsRead(sps: seq<Spelling>, seps: seq<string>, cfg: Config)
    requires |seps| == |sps| + 1 && GoodSeparators(seps) && forall i :: 0 <= i < |sps| ==> sps[i].Valid()
    requires |Separated(TextsOf(sps), seps)| < BUFFER_SIZE
    ensures Parse(Separated(TextsOf(sps), seps), cfg) == AppliedAll(cfg, false, sps)
  {
    forall i | 0 <= i < |sps| ensures Piece(TextsOf(sps)[i]) {
      SpellingIsPiece(sps[i]);
    }
    TokensOfSeparated(TextsOf(sps), seps);
    SpellingsApply(State(cfg, None), sps);
  }

  // ---------------------------------------------------------------------------------------------
  // Numbers, units and profiles in every form
  // ---------------------------------------------------------------------------------------------

  /** The number of nanoseconds in a unit, by its first letter in either case. */
  function NsPerUnit(c: char): nat {
    if c == 'n' || c == 'N' then 1
    else if c == 'u' || c == 'U' then 1000
    else if c == 'm' || c == 'M' then 1_000_000
    else if c == 's' || c == 'S' then 1_000_000_000
    else 0
  }

  /** A time in 64 bits: with a unit, of which the first letter counts; without one in nanoseconds; else the old one. */
  lemma DurationsAreRead(n: uint64, unit: string, def: uint64)
    requires unit == "" || (DigitOf(unit[0]) >= 10 && unit[0] != 'x' && unit[0] != 'X')
    ensures ParseDuration(Dec(n) + unit, def) ==
            if unit == "" then n
            else if NsPerUnit(unit[0]) > 0 then n * NsPerUnit(unit[0]) % 0x1_0000_0000_0000_0000
            else def
  {
    StrtoulOfNumeral(n, false, unit);
    DurationOf(Dec(n) + unit, n, unit, def);
  }

  lemma DurationOf(value: string, n: uint64, unit: string, def: uint64)
    requires value != "" && Strtoul(value, false) == Read(true, n, unit)
    ensures ParseDuration(value, def) ==
            if unit == "" then n
            else if NsPerUnit(unit[0]) > 0 then n * NsPerUnit(unit[0]) % 0x1_0000_0000_0000_0000
            else def
  {
    if unit != "" {
      LowerCase(unit[0]);
    }
  }

  lemma LowerCase(c: char)
    ensures Lower(c) == 'n' <==> c == 'n' || c == 'N'
    ensures Lower(c) == 'u' <==> c == 'u' || c == 'U'
    ensures Lower(c) == 'm' <==> c == 'm' || c == 'M'
    ensures Lower(c) == 's' <==> c == 's' || c == 'S'
  {
  }

  /** A number of a rate or burst size is read modulo 2^32, and only if nothing follows it. */
  lemma NumbersAreRead(n: uint64, rest: string, def: uint32)
    requires rest == "" || (DigitOf(rest[0]) >= 10 && rest[0] != 'x' && rest[0] != 'X')
    ensures ParseU32(Dec(n) + rest, def) == if rest == "" then n % 0x1_0000_0000 else def
  {
    StrtoulOfNumeral(n, true, rest);
  }

  /** A hexadecimal number is announced by 0x. */
  lemma HexIsRead(n: uint64, def: uint32)
    ensures ParseU32("0x" + Numeral(n, Hex), def) == n % 0x1_0000_0000
  {
    StrtoulOfHex(n);
    WholeNumber("0x" + Numeral(n, Hex), n, def);
  }

  /** Nothing is read from an empty value. */
  lemma EmptyKeepsDefault(u: uint32, t: uint64)
    ensures ParseU32("", u) == u && ParseDuration("", t) == t
  {
  }

  /** A name of the general form is a profile exactly if its numbers are in range. */
  lemma ProfileIff(speed: uint32, width: uint32)
    ensures ProfileFromName(ProfileName(speed, width)) ==
            if 1 <= speed <= 8 && 1 <= width <= 16 then Some(Link(speed, width)) else None
  {
    var name := ProfileName(speed, width);
    ScanLinkOf(speed, width);
    NameFits(speed, width);
    if NamedLink(name).Some? {
      NamedLinkIsScanned(name);
    }
    ScannedName(name, Link(speed, width));
  }

  lemma ScannedName(name: string, link: Link)
    requires ToLower(name) == name && |name| < KEY_SIZE && ScanLink(name) == Some(link)
    requires NamedLink(name).Some? ==> NamedLink(name) == Some(link)
    ensures ProfileFromName(name) == if 1 <= link.speed <= 8 && 1 <= link.width <= 16 then Some(link) else None
  {
  }

  lemma NameFits(speed: uint32, width: uint32)
    ensures ToLower(ProfileName(speed, width)) == ProfileName(speed, width) && |ProfileName(speed, width)| < KEY_SIZE
  {
    var name := ProfileName(speed, width);
    TenDigits(speed);
    TenDigits(width);
    forall i | 0 <= i < |name| ensures Lower(name[i]) == name[i] {
      NameChar(speed, width, i);
    }
  }

  lemma TenDigits(n: uint32)
    ensures |Dec(n)| <= 10
  {
    assert Pow10(5) == 100_000;
    assert Pow10(10) == 100_000 * Pow10(5);
    NumeralLength(n, Decimal, 10);
  }

  /** So is one without gen in front. */
  lemma PairIff(speed: uint32, width: uint32)
    ensures ProfileFromName(Dec(speed) + "x" + Dec(width)) ==
            if 1 <= speed <= 8 && 1 <= width <= 16 then Some(Link(speed, width)) else None
  {
    var name := Dec(speed) + "x" + Dec(width);
    ScanLinkOf(speed, width);
    NameFits(speed, width);
    PairIsKept(Dec(speed), Dec(width));
    if NamedLink(name).Some? {
      NamedLinkIsScanned(name);
    }
    ScannedName(name, Link(speed, width));
  }

  lemma PairIsKept(a: string, b: string)
    requires ToLower("gen" + a + "x" + b) == "gen" + a + "x" + b && |"gen" + a + "x" + b| < KEY_SIZE
    ensures ToLower(a + "x" + b) == a + "x" + b && |a + "x" + b| < KEY_SIZE
  {
    var long, short := "gen" + a + "x" + b, a + "x" + b;
    assert long == "gen" + short;
    forall i | 0 <= i < |short| ensures Lower(short[i]) == short[i] {
      assert long[3 + i] == short[i] && ToLower(long)[3 + i] == Lower(long[3 + i]);
    }
  }

  /** Letters count in either case. */
  lemma CaseIsIgnored(name: string)
    requires |name| <= 31
    ensures ProfileFromName(name) == ProfileFromName(ToLower(name))
  {
    assert ToLower(ToLower(name)) == ToLower(name);
  }

  /** What follows the second number is ignored. */
  lemma TrailingTextIsIgnored(speed: uint32, width: uint32, rest: string)
    requires rest == "" || (DigitOf(rest[0]) >= 10 && rest[0] != 'x' && rest[0] != 'X')
    ensures ScanPair(Dec(speed) + "x" + Dec(width) + rest) == Some(Link(speed, width))
  {
    var w := Dec(width) + rest;
    AroundX(Dec(speed), Dec(width), rest);
    StrtoulStopsAtX(speed, "x" + w);
    StrtoulOfNumeral(width, false, rest);
    ScanPairIs(Dec(speed) + ("x" + w), speed, width, w, rest);
  }

  lemma AroundX(a: string, b: string, rest: string)
    ensures a + "x" + b + rest == a + ("x" + (b + rest))
  {
  }

  /** A time is always decimal, a number with a zero in front octal. */
  lemma LeadingZerosAreRead(n: uint64, t: uint64, u: uint32)
    requires n > 0
    ensures ParseDuration("0" + Dec(n) + "ns", t) == n
    ensures ParseU32("0" + Numeral(n, Octal), u) == n % 0x1_0000_0000
  {
    StrtoulOfPadded(n, "ns");
    DurationOf("0" + Dec(n) + "ns", n, "ns", t);
    StrtoulOfOctal(n);
    WholeNumber("0" + Numeral(n, Octal), n, u);
  }

  lemma WholeNumber(value: string, n: uint64, def: uint32)
    requires value != "" && Strtoul(value, true) == Read(true, n, "")
    ensures ParseU32(value, def) == n % 0x1_0000_0000
  {
  }

  /** A profile out of range changes nothing. */
  lemma BadProfileIsIgnored(cfg: Config, speed: uint32, width: uint32)
    requires !(1 <= speed <= 8 && 1 <= width <= 16)
    ensures Resolve(State(cfg, Some(ProfileName(speed, width)))) == cfg
  {
    ProfileIff(speed, width);
  }

  /** Only the first 255 characters of a scenario count, and only the first 31 of a profile name. */
  lemma LongTextsAreCut(scenario: string, name: string, cfg: Config)
    ensures |scenario| > 255 ==> Parse(scenario, cfg) == Parse(scenario[..255], cfg)
    ensures |name| > 31 ==> ProfileFromName(name) == ProfileFromName(name[..31])
  {
  }

  /** A key that is none of the eleven is ignored. */
  lemma OtherKeysAreIgnored(st: State, key: string, value: string)
    requires key !in {"profile", "name", "latency", "latency_ns", "jitter", "jitter_ns", "tps", "tokens_per_second",
                      "burst", "burst_size", "drop_rate"}
    ensures SetKey(st, key, value) == st
  {
  }

  // ---------------------------------------------------------------------------------------------
  // Order
  // ---------------------------------------------------------------------------------------------

  predicate Distinct(settings: seq<Setting>) {
    forall i, j :: 0 <= i < j < |settings| ==> settings[i].Key() != settings[j].Key()
  }

  /** Settings of different keys change different fields. */
  lemma ApplyCommutes(cfg: Config, a: Setting, b: Setting)
    requires a.Key() != b.Key()
    ensures Apply(Apply(cfg, a), b) == Apply(Apply(cfg, b), a)
  {
  }

  /** A setting whose key occurs only once may be moved to the front. */
  lemma {:induction false} ApplyFirst(cfg: Config, settings: seq<Setting>, k: nat)
    requires k < |settings| && Distinct(settings)
    ensures ApplyAll(cfg, settings) == ApplyAll(Apply(cfg, settings[k]), settings[..k] + settings[k + 1..])
    decreases |settings|
  {
    if k == 0 {
      assert settings[..0] + settings[1..] == settings[1..];
    } else {
      var first, more := settings[0], settings[1..];
      ApplyFirst(Apply(cfg, first), more, k - 1);
      ApplyCommutes(cfg, first, settings[k]);
      var rest := settings[..k] + settings[k + 1..];
      assert rest[0] == first && rest[1..] == more[..k - 1] + more[k..];
    }
  }

  /** Taking the same setting out of two permuted lists leaves permuted lists. */
  lemma Without(a: seq<Setting>, b: seq<Setting>, k: nat)
    requires k < |b| && a != [] && b[k] == a[0] && multiset(a) == multiset(b)
    ensures multiset(b[..k] + b[k + 1..]) == multiset(a[1..])
  {
    assert a == [a[0]] + a[1..] && b == b[..k] + ([b[k]] + b[k + 1..]);
    var rest := b[..k] + b[k + 1..];
    assert multiset(a) == multiset{a[0]} + multiset(a[1..]);
    assert multiset(b) == multiset(b[..k]) + (multiset{a[0]} + multiset(b[k + 1..]));
    assert multiset(rest) == multiset(b[..k]) + multiset(b[k + 1..]);
    assert multiset(rest) + multiset{a[0]} == multiset(a);
    forall s: Setting ensures multiset(rest)[s] == multiset(a[1..])[s] {
      assert multiset(a)[s] == (multiset(rest) + multiset{a[0]})[s];
    }
  }

  lemma DistinctWithout(b: seq<Setting>, k: nat)
    requires k < |b| && Distinct(b)
    ensures Distinct(b[..k] + b[k + 1..])
  {
    var rest := b[..k] + b[k + 1..];
    forall i, j | 0 <= i < j < |rest| ensures rest[i].Key() != rest[j].Key() {
      assert rest[i] == b[if i < k then i else i + 1] && rest[j] == b[if j < k then j else j + 1];
    }
  }

  /** With distinct keys the order of the settings does not matter. */
  lemma {:induction false} OrderDoesNotMatter(cfg: Config, a: seq<Setting>, b: seq<Setting>)
    requires multiset(a) == multiset(b) && Distinct(a) && Distinct(b)
    ensures ApplyAll(cfg, a) == ApplyAll(cfg, b)
    decreases |a|
  {
    if a == [] {
      assert |multiset(b)| == |b|;
    } else {
      assert a[0] in multiset(b);
      var k :| 0 <= k < |b| && b[k] == a[0];
      var rest := b[..k] + b[k + 1..];
      Without(a, b, k);
      DistinctWithout(b, k);
      DistinctWithout(a, 0);
      assert a[..0] + a[1..] == a[1..];
      ApplyFirst(cfg, b, k);
      OrderDoesNotMatter(Apply(cfg, a[0]), a[1..], rest);
    }
  }

  /** So permuting the tokens of a printed scenario leaves the configuration as it is. */
  lemma PermutedScenario(a: seq<Setting>, b: seq<Setting>, cfg: Config)
    requires a != [] && b != [] && multiset(a) == multiset(b) && Distinct(a) && Distinct(b)
    requires AllValid(a) && AllValid(b) && |Spec(a)| < BUFFER_SIZE && |Spec(b)| < BUFFER_SIZE
    ensures Parse(Spec(a), cfg) == Parse(Spec(b), cfg)
  {
    ScenarioRoundTrip(a, cfg);
    ScenarioRoundTrip(b, cfg);
    OrderDoesNotMatter(cfg, a, b);
  }

  // ---------------------------------------------------------------------------------------------
  // The scenario of the GUI
  // ---------------------------------------------------------------------------------------------

  function GuiSettings(link: Link, latency: nat, tps: nat, burst: nat, jitter: nat, drop: string): seq<Setting>
    requires latency <= 1_000_000 && tps <= 100_000_000 && burst <= 64 && jitter <= 1_000_000
  {
    [Profile(link.speed, link.width), Latency(latency), Tps(tps), Burst(burst), Jitter(jitter), DropRate(drop)]
  }

  /** Within the ranges of the dialog the text always fits the buffer and is read back exactly. */
  lemma GuiRoundTrip(link: Link, latency: nat, tps: nat, burst: nat, jitter: nat, drop: string, cfg: Config)
    requires 1 <= link.speed <= 8 && 1 <= link.width <= 16
    requires latency <= 1_000_000 && tps <= 100_000_000 && burst <= 64 && jitter <= 1_000_000
    requires |drop| <= 30 && PlainText(drop)
    ensures Parse(Spec(GuiSettings(link, latency, tps, burst, jitter, drop)), cfg) ==
            Config(link.speed, link.speed, link.width, link.width, latency, jitter, tps, burst, drop)
  {
    var settings := GuiSettings(link, latency, tps, burst, jitter, drop);
    forall i | 0 <= i < 6 ensures settings[i].Valid() && |settings[i].Print()| <= 40 {
      PrintFits(settings[i]);
    }
    SixFit(settings);
    ScenarioRoundTrip(settings, cfg);
    GuiMeaning(link, latency, tps, burst, jitter, drop, cfg);
  }

  lemma {:induction false} SixFit(settings: seq<Setting>)
    requires |settings| == 6 && forall i :: 0 <= i < 6 ==> |settings[i].Print()| <= 40
    ensures |Spec(settings)| < BUFFER_SIZE
  {
    JoinBound(Printed(settings), 40);
  }

  lemma GuiMeaning(link: Link, latency: nat, tps: nat, burst: nat, jitter: nat, drop: string, cfg: Config)
    requires latency <= 1_000_000 && tps <= 100_000_000 && burst <= 64 && jitter <= 1_000_000
    ensures ApplyAll(cfg, GuiSettings(link, latency, tps, burst, jitter, drop)) ==
            Config(link.speed, link.speed, link.width, link.width, latency, jitter, tps, burst, drop)
  {
    ApplySix(cfg, GuiSettings(link, latency, tps, burst, jitter, drop));
  }

  lemma PrintFits(s: Setting)
    requires match s
             case Profile(speed, width) => speed <= 8 && width <= 16
             case DropRate(t) => |t| <= 30
             case _ => true
    ensures |s.Print()| <= 40
  {
    assert Pow10(1) == 10 && Pow10(2) == 100;
    match s
    case Profile(speed, width) => NumeralLength(speed, Decimal, 1); NumeralLength(width, Decimal, 2);
    case Latency(n) => NumeralOfWord(n, Decimal);
    case Tps(n) => NumeralOfWord(n, Decimal);
    case Burst(n) => NumeralOfWord(n, Decimal);
    case Jitter(n) => NumeralOfWord(n, Decimal);
    case DropRate(_) =>
  }

  lemma ApplySix(cfg: Config, s: seq<Setting>)
    requires |s| == 6
    ensures ApplyAll(cfg, s) == Apply(Apply(Apply(Apply(Apply(Apply(cfg, s[0]), s[1]), s[2]), s[3]), s[4]), s[5])
  {
    assert s[1..][1..] == s[2..] && s[2..][1..] == s[3..] && s[3..][1..] == s[4..] && s[4..][1..] == s[5..];
    var c1 := Apply(cfg, s[0]);
    var c2 := Apply(c1, s[1]);
    var c3 := Apply(c2, s[2]);
    var c4 := Apply(c3, s[3]);
    var c5 := Apply(c4, s[4]);
    assert ApplyAll(cfg, s) == ApplyAll(c1, s[1..]) == ApplyAll(c2, s[2..]);
    assert ApplyAll(c2, s[2..]) == ApplyAll(c3, s[3..]) == ApplyAll(c4, s[4..]);
    assert ApplyAll(c4, s[4..]) == ApplyAll(c5, s[5..]) == Apply(c5, s[5]);
  }
}
