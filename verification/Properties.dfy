/** `server.properties`: what is printed, how it is parsed, and when the two are inverse. */
module Properties {
  import opened Common

  // ----- Game modes -----

  datatype GameMode = Survival | Creative | Adventure | SurvivalViewer | CreativeViewer | Default

  function ToGameModeString(m: GameMode): string {
    match m
    case Survival => "Survival"
    case Creative => "Creative"
    case Adventure => "Adventure"
    case SurvivalViewer => "Survival Viewer"
    case CreativeViewer => "Creative Viewer"
    case Default => "Default"
  }

  function ToUpper(c: char): char {
    if 'a' <= c <= 'z' then (c as int - 32) as char else c
  }

  predicate IEquals(a: string, b: string) {
    |a| == |b| && (a == [] || (ToUpper(a[0]) == ToUpper(b[0]) && IEquals(a[1..], b[1..])))
  }

  function ParseGameMode(s: string): GameMode {
    if IEquals(s, "survival") || IEquals(s, "s") then Survival
    else if IEquals(s, "creative") || IEquals(s, "c") then Creative
    else if IEquals(s, "adventure") || IEquals(s, "a") then Adventure
    else if
      || IEquals(s, "survival_viewer") || IEquals(s, "survival viewer")
      || IEquals(s, "spectator") || IEquals(s, "spec")
    then SurvivalViewer
    else if IEquals(s, "creative_viewer") || IEquals(s, "creative viewer") then CreativeViewer
    else Default
  }

  /** Every mode is read back from the name it is printed with. */
  lemma GameModeRoundTrip(m: GameMode)
    ensures ParseGameMode(ToGameModeString(m)) == m
  {
    hide IEquals, ToUpper;
    var s := ToGameModeString(m);
    Lengths(s);
    match m
    case Survival => ShortLetters();
    case Creative =>
      Different();
      ShortLetters();
    case Adventure => ShortLetters();
    case SurvivalViewer =>
      Different();
      SurvivalViewerLetters();
    case CreativeViewer =>
      Different();
      CreativeViewerLetters();
    case Default =>
  }

  lemma Different()
    ensures !IEquals("Creative", "survival")
    ensures !IEquals("Survival Viewer", "survival_viewer")
    ensures !IEquals("Creative Viewer", "survival_viewer")
    ensures !IEquals("Creative Viewer", "survival viewer")
    ensures !IEquals("Creative Viewer", "creative_viewer")
  {
    hide IEquals;
    Differ("Creative", "survival", 0);
    Differ("Survival Viewer", "survival_viewer", 8);
    Differ("Creative Viewer", "survival_viewer", 0);
    Differ("Creative Viewer", "survival viewer", 0);
    Differ("Creative Viewer", "creative_viewer", 8);
  }

  lemma ShortLetters()
    ensures IEquals("Survival", "survival")
    ensures IEquals("Creative", "creative")
    ensures IEquals("Adventure", "adventure")
  {
    hide IEquals;
    SameLetters("Survival", "survival");
    SameLetters("Creative", "creative");
    SameLetters("Adventure", "adventure");
  }

  lemma SurvivalViewerLetters()
    ensures IEquals("Survival Viewer", "survival viewer")
  {
    hide IEquals;
    SameLetters("Survival Viewer", "survival viewer");
  }

  lemma CreativeViewerLetters()
    ensures IEquals("Creative Viewer", "creative viewer")
  {
    hide IEquals;
    SameLetters("Creative Viewer", "creative viewer");
  }

  lemma {:induction false} SameLetters(a: string, b: string)
    requires |a| == |b| && forall i :: 0 <= i < |a| ==> ToUpper(a[i]) == ToUpper(b[i])
    ensures IEquals(a, b)
  {
    if a != [] {
      SameLetters(a[1..], b[1..]);
    }
  }

  lemma {:induction false} Differ(a: string, b: string, i: nat)
    requires i < |a| && i < |b| && ToUpper(a[i]) != ToUpper(b[i])
    ensures !IEquals(a, b)
  {
    if i > 0 && |a| == |b| {
      Differ(a[1..], b[1..], i - 1);
    }
  }

  /** Letter by letter, whatever the case. */
  lemma LettersIff(a: string, b: string)
    ensures IEquals(a, b) <==> |a| == |b| && forall i :: 0 <= i < |a| ==> ToUpper(a[i]) == ToUpper(b[i])
  {
    hide IEquals, ToUpper;
    Lengths(a);
    if |a| == |b| {
      if forall i :: 0 <= i < |a| ==> ToUpper(a[i]) == ToUpper(b[i]) {
        SameLetters(a, b);
      } else {
        var i :| 0 <= i < |a| && ToUpper(a[i]) != ToUpper(b[i]);
        Differ(a, b, i);
      }
    }
  }

  /** A text means a mode iff it is one of the mode's names, in any case; every other text means the default. */
  lemma GameModeIff(s: string)
    ensures ParseGameMode(s) == Survival <==> IEquals(s, "survival") || IEquals(s, "s")
    ensures ParseGameMode(s) == Creative <==> IEquals(s, "creative") || IEquals(s, "c")
    ensures ParseGameMode(s) == Adventure <==> IEquals(s, "adventure") || IEquals(s, "a")
    ensures ParseGameMode(s) == SurvivalViewer <==>
            || IEquals(s, "survival_viewer") || IEquals(s, "survival viewer")
            || IEquals(s, "spectator") || IEquals(s, "spec")
    ensures ParseGameMode(s) == CreativeViewer <==>
            IEquals(s, "creative_viewer") || IEquals(s, "creative viewer")
  {
    hide IEquals;
    FirstLetter(s, "survival");
    FirstLetter(s, "s");
    FirstLetter(s, "creative");
    FirstLetter(s, "c");
    FirstLetter(s, "adventure");
    FirstLetter(s, "a");
    FirstLetter(s, "survival_viewer");
    FirstLetter(s, "survival viewer");
    FirstLetter(s, "spectator");
    FirstLetter(s, "spec");
    FirstLetter(s, "creative_viewer");
    FirstLetter(s, "creative viewer");
  }

  /** Names of different modes differ in their length or their first letter. */
  lemma FirstLetter(s: string, name: string)
    requires name != ""
    ensures IEquals(s, name) ==> |s| == |name| && ToUpper(s[0]) == ToUpper(name[0])
  {}

  lemma Lengths(a: string)
    ensures forall b :: IEquals(a, b) ==> |a| == |b|
  {}

  // ----- Decimal numbers -----

  function Digit(d: nat): char
    requires d < 10
  {
    ('0' as int + d) as char
  }

  predicate IsDigit(c: char) { '0' <= c <= '9' }

  /** How the stream prints an unsigned number. */
  function Decimal(n: nat): (s: string)
    ensures s != [] && forall c :: c in s ==> IsDigit(c)
  {
    if n < 10 then [Digit(n)] else Decimal(n / 10) + [Digit(n % 10)]
  }

  function DigitOf(c: char): nat
    requires IsDigit(c)
  {
    c as int - '0' as int
  }

  function DigitsValue(s: string): nat
    requires forall c :: c in s ==> IsDigit(c)
  {
    if s == [] then 0
    else
      var last := s[|s| - 1];
      assert last in s;
      DigitsValue(s[..|s| - 1]) * 10 + DigitOf(last)
  }

  function DigitCount(s: string): (n: nat)
    ensures n <= |s| && forall c :: c in s[..n] ==> IsDigit(c)
  {
    if s == [] || !IsDigit(s[0]) then 0
    else
      var n := DigitCount(s[1..]);
      assert s[..1 + n] == [s[0]] + s[1..][..n];
      1 + n
  }

  predicate IsSpace(c: char) {
    c == ' ' || c == '\t' || c == '\n' || c == '\r' || c as int == 11 || c as int == 12
  }

  function SkipSpace(s: string): string {
    if s != [] && IsSpace(s[0]) then SkipSpace(s[1..]) else s
  }

  datatype Number = Number(negative: bool, magnitude: nat)

  /** Optional space, optional sign, digits; anything after them is ignored. */
  function ParseNumber(s: string): Option<Number> {
    var t := SkipSpace(s);
    var signed := t != [] && (t[0] == '-' || t[0] == '+');
    var digits := if signed then t[1..] else t;
    var n := DigitCount(digits);
    if n == 0 then None else Some(Number(signed && t[0] == '-', DigitsValue(digits[..n])))
  }

  /** `std::stoi` with a 32-bit int: None where it throws. */
  function Stoi(s: string): Option<int> {
    var n :- ParseNumber(s);
    var v: int := if n.negative then 0 - n.magnitude else n.magnitude;
    if -0x8000_0000 <= v < 0x8000_0000 then Some(v) else None
  }

  /** `std::stoul` with a 64-bit unsigned long: a minus sign negates modulo 2^64. */
  function Stoul(s: string): Option<nat> {
    var n :- ParseNumber(s);
    if n.magnitude >= TWO_64 then None
    else Some(if n.negative then (TWO_64 - n.magnitude) % TWO_64 else n.magnitude)
  }

  lemma {:induction false} DecimalValue(n: nat)
    ensures DigitsValue(Decimal(n)) == n
  {
    if n >= 10 {
      DecimalValue(n / 10);
      var s := Decimal(n);
      assert s[..|s| - 1] == Decimal(n / 10);
    } else {
      assert Decimal(n)[..0] == [];
    }
  }

  lemma {:induction false} AllDigits(s: string)
    requires forall c :: c in s ==> IsDigit(c)
    ensures DigitCount(s) == |s|
  {
    if s != [] {
      assert s[0] in s;
      AllDigits(s[1..]);
    }
  }

  lemma NumberRoundTrip(n: nat)
    ensures ParseNumber(Decimal(n)) == Some(Number(false, n))
  {
    var s := Decimal(n);
    assert s[0] in s;
    AllDigits(s);
    DecimalValue(n);
    assert s[..|s|] == s;
  }

  // ----- The file -----

  datatype Config = Config(
    port: nat, portIpv6: nat, maxPlayers: nat, serverName: string, motd: string, gameMode: GameMode, force: bool)
  {
    predicate Fits() { port < 0x1_0000 && portIpv6 < 0x1_0000 && maxPlayers < TWO_32 }
  }

  const DEFAULTS := Config(19132, 19133, 100, "CyrexMC", "Cyrex MCBE Software", Survival, false)

  function Line(key: string, val: string): string { key + "=" + val }

  function ConfigLines(c: Config): seq<string> {
    [Line("server-port", Decimal(c.port)),
     Line("server-portv6", Decimal(c.portIpv6)),
     Line("max-players", Decimal(c.maxPlayers)),
     Line("server-name", c.serverName),
     Line("motd", c.motd),
     Line("gamemode", ToGameModeString(c.gameMode)),
     Line("force-resources", if c.force then "1" else "0")]
  }

  function Text(lines: seq<string>): string {
    if lines == [] then "" else lines[0] + "\n" + Text(lines[1..])
  }

  function Find(s: string, c: char): (n: nat)
    ensures n <= |s| && c !in s[..n] && (n < |s| ==> s[n] == c)
  {
    if s == [] || s[0] == c then 0
    else
      var n := Find(s[1..], c);
      assert s[..1 + n] == [s[0]] + s[1..][..n];
      1 + n
  }

  /** The lines `getline` yields: a last one without a newline counts only if it is not empty. */
  function Lines(text: string): (ls: seq<string>)
    ensures forall l :: l in ls ==> '\n' !in l
    decreases |text|
  {
    if text == [] then []
    else
      var n := Find(text, '\n');
      if n == |text| then
        assert text[..n] == text;
        [text]
      else [text[..n]] + Lines(text[n + 1..])
  }

  /** The effect of one line; None where a conversion throws. */
  function ApplyLine(c: Config, line: string): Option<Config> {
    if line == "" || line[0] == '#' then Some(c)
    else
      var pos := Find(line, '=');
      if pos == |line| then Some(c) else ApplyPair(c, line[..pos], line[pos + 1..])
  }

  function ApplyPair(c: Config, key: string, val: string): Option<Config> {
    if key == "server-port" then
      var n :- Stoi(val);
      Some(c.(port := n % 0x1_0000))
    else if key == "server-portv6" then
      var n :- Stoi(val);
      Some(c.(portIpv6 := n % 0x1_0000))
    else if key == "max-players" then
      var n :- Stoul(val);
      Some(c.(maxPlayers := n % TWO_32))
    else if key == "server-name" then Some(c.(serverName := val))
    else if key == "motd" then Some(c.(motd := val))
    else if key == "gamemode" then Some(c.(gameMode := ParseGameMode(val)))
    else if key == "force-resources" then Some(c.(force := val == "1" || val == "true" || val == "yes"))
    else Some(c)
  }

  function ApplyLines(c: Config, lines: seq<string>): Option<Config>
    decreases |lines|
  {
    if lines == [] then Some(c)
    else
      var c' :- ApplyLine(c, lines[0]);
      ApplyLines(c', lines[1..])
  }

  /** One `<<` with a newline per line. */
  method WriteLines(lines: seq<string>) returns (text: string)
    ensures text == Text(lines)
  {
    text := "";
    for i := 0 to |lines|
      invariant text + Text(lines[i..]) == Text(lines)
    {
      TextStep(text, lines, i);
      text := text + lines[i] + "\n";
    }
  }

  lemma TextStep(text: string, lines: seq<string>, i: nat)
    requires i < |lines|
    ensures text + Text(lines[i..]) == (text + lines[i] + "\n") + Text(lines[i + 1..])
  {
    assert lines[i..][1..] == lines[i + 1..];
    assert text + (lines[i] + "\n" + Text(lines[i + 1..])) == (text + lines[i] + "\n") + Text(lines[i + 1..]);
  }

  /** `writeDefaults`: the text of the file. */
  method WriteConfig(c: Config) returns (text: string)
    ensures text == Text(ConfigLines(c))
  {
    hide ConfigLines;
    text := WriteLines(ConfigLines(c));
  }

  /** The path given to `load`: nothing there, something that cannot be opened, or a file. */
  datatype File = Missing(writable: bool) | Unreadable | Readable(text: string)

  /** `ServerProperties::load`: a missing file is written with the defaults, if it can be. */
  method Load(file: File) returns (cfg: Option<Config>, file': File)
    ensures file.Missing? ==>
              cfg == Some(DEFAULTS) && file' == if file.writable then Readable(Text(ConfigLines(DEFAULTS))) else file
    ensures file.Unreadable? ==> cfg == Some(DEFAULTS) && file' == file
    ensures file.Readable? ==> cfg == ApplyLines(DEFAULTS, Lines(file.text)) && file' == file
  {
    hide ApplyLine, ConfigLines, Text, Lines;
    if file.Missing? {
      if !file.writable {
        return Some(DEFAULTS), file;
      }
      var text := WriteConfig(DEFAULTS);
      return Some(DEFAULTS), Readable(text);
    }
    if file.Unreadable? {
      return Some(DEFAULTS), file;
    }
    var lines := Lines(file.text);
    var current := DEFAULTS;
    for i := 0 to |lines|
      invariant ApplyLines(DEFAULTS, lines) == ApplyLines(current, lines[i..])
    {
      assert lines[i..][0] == lines[i] && lines[i..][1..] == lines[i + 1..];
      var next := ApplyLine(current, lines[i]);
      if next.None? {
        return None, file;
      }
      current := next.value;
    }
    return Some(current), file;
  }

  // ----- What a line does -----

  /** The printed lines, then one that need not end: all are lines, the last if it is not empty. */
  lemma {:induction false} LastLine(ls: seq<string>, last: string)
    requires (forall l :: l in ls ==> '\n' !in l) && '\n' !in last
    ensures Lines(Text(ls) + last) == ls + if last == "" then [] else [last]
  {
    hide Lines;
    if ls == [] {
      assert Text(ls) + last == last;
      OnlyLine(last);
    } else {
      var l, rest, end := ls[0], ls[1..], if last == "" then [] else [last];
      assert ls == [l] + rest;
      Assoc(l + "\n", Text(rest), last);
      FirstLine(l, Text(rest) + last);
      LastLine(rest, last);
      Assoc([l], rest, end);
    }
  }

  lemma OnlyLine(last: string)
    requires '\n' !in last
    ensures Lines(last) == if last == "" then [] else [last]
  {
    FindNone(last, '\n');
  }

  lemma FirstLine(l: string, text: string)
    requires '\n' !in l
    ensures Lines(l + "\n" + text) == [l] + Lines(text)
  {
    var all := l + "\n" + text;
    assert all[..|l|] == l && all[|l|] == '\n' && all[|l| + 1..] == text;
    FindAt(all, '\n', |l|);
  }

  lemma FindNone(s: string, c: char)
    requires c !in s
    ensures Find(s, c) == |s|
  {}

  /** Lines take effect one after the other, and the first that throws ends the reading. */
  lemma {:induction false} LinesInTurn(c: Config, before: seq<string>, line: string, after: seq<string>)
    ensures ApplyLines(c, before + ([line] + after)) ==
            match ApplyLines(c, before)
            case None => None
            case Some(d) =>
              match ApplyLine(d, line)
              case None => None
              case Some(d') => ApplyLines(d', after)
    decreases |before|
  {
    hide ApplyLine;
    if before == [] {
      assert before + ([line] + after) == [line] + after && ([line] + after)[1..] == after;
    } else {
      TailOfConcat(before, [line] + after);
      var next := ApplyLine(c, before[0]);
      if next.Some? {
        LinesInTurn(next.value, before[1..], line, after);
      }
    }
  }

  /** Empty lines, comments, lines without '=' and unknown keys change nothing. */
  lemma IgnoredLine(c: Config, line: string)
    ensures line == "" || line[0] == '#' || '=' !in line ==> ApplyLine(c, line) == Some(c)
  {
    if '=' !in line {
      FindNone(line, '=');
    }
  }

  lemma UnknownKey(c: Config, key: string, val: string)
    requires key == "" || key[0] != '#'
    requires '=' !in key
    requires key !in ["server-port", "server-portv6", "max-players", "server-name", "motd", "gamemode",
                      "force-resources"]
    ensures ApplyLine(c, Line(key, val)) == Some(c)
  {
    var line := Line(key, val);
    assert line[..|key|] == key && line[|key|] == '=' && line[|key| + 1..] == val;
    FindAt(line, '=', |key|);
  }

  /** Resources are forced by "1", "true" and "yes", and by nothing else. */
  lemma ForceIff(c: Config, val: string)
    ensures ApplyLine(c, Line("force-resources", val)) == Some(c.(force := val in ["1", "true", "yes"]))
  {
    LineIsPair(c, "force-resources", val);
  }

  /** Ports are cut to sixteen bits and the player limit to 32; numbers too large for the parser throw. */
  lemma NumbersApplied(c: Config, n: nat)
    ensures ApplyLine(c, Line("server-port", Decimal(n))) ==
            if n < 0x8000_0000 then Some(c.(port := n % 65536)) else None
    ensures ApplyLine(c, Line("server-portv6", Decimal(n))) ==
            if n < 0x8000_0000 then Some(c.(portIpv6 := n % 65536)) else None
    ensures ApplyLine(c, Line("max-players", Decimal(n))) ==
            if n < 0x1_0000_0000_0000_0000 then Some(c.(maxPlayers := n % 0x1_0000_0000)) else None
  {
    hide ApplyLine, Line, Decimal, ParseNumber;
    LineIsPair(c, "server-port", Decimal(n));
    LineIsPair(c, "server-portv6", Decimal(n));
    LineIsPair(c, "max-players", Decimal(n));
    NumberRoundTrip(n);
  }

  /** A minus sign counts down from the top of the range. */
  lemma NegativesApplied(c: Config, n: nat)
    requires 0 < n
    ensures ApplyLine(c, Line("server-port", "-" + Decimal(n))) ==
            if n <= 0x8000_0000 then Some(c.(port := (0x1_0000_0000 - n) % 65536)) else None
    ensures ApplyLine(c, Line("max-players", "-" + Decimal(n))) ==
            if n < 0x1_0000_0000_0000_0000
            then Some(c.(maxPlayers := (0x1_0000_0000_0000_0000 - n) % 0x1_0000_0000)) else None
  {
    hide ApplyLine, Line, Decimal, ParseNumber;
    LineIsPair(c, "server-port", "-" + Decimal(n));
    LineIsPair(c, "max-players", "-" + Decimal(n));
    SignedNumber(n, '-');
    Complement(n);
  }

  lemma Complement(n: nat)
    ensures (0 - n) % 65536 == (0x1_0000_0000 - n) % 65536
    ensures 0 < n < TWO_64 ==> (TWO_64 - n) % TWO_64 == TWO_64 - n
  {
    assert 0x1_0000_0000 - n == (0 - n) + 65536 * 65536;
  }

  lemma SignedNumber(n: nat, sign: char)
    requires sign == '-' || sign == '+'
    ensures ParseNumber([sign] + Decimal(n)) == Some(Number(sign == '-', n))
  {
    var s := [sign] + Decimal(n);
    assert SkipSpace(s) == s;
    assert s[1..] == Decimal(n);
    AllDigits(Decimal(n));
    DecimalValue(n);
    assert Decimal(n)[..|Decimal(n)|] == Decimal(n);
  }

  /** Space before a number and anything but a digit after it do not matter; without a digit there is none. */
  lemma NumberInText(n: nat, space: string, rest: string)
    requires (forall c :: c in space ==> IsSpace(c)) && (rest == "" || !IsDigit(rest[0]))
    ensures ParseNumber(space + Decimal(n) + rest) == Some(Number(false, n))
    ensures ParseNumber(space + rest) == None <== rest == "" || (!IsSpace(rest[0]) && rest[0] != '-' && rest[0] != '+')
  {
    hide Decimal;
    var s := Decimal(n) + rest;
    assert space + Decimal(n) + rest == space + s;
    assert s[0] in Decimal(n);
    SpaceSkipped(space, s);
    DigitsThen(Decimal(n), rest);
    DecimalValue(n);
    assert s[..|Decimal(n)|] == Decimal(n);
    if rest == "" || !IsSpace(rest[0]) {
      SpaceSkipped(space, rest);
    }
  }

  /** The characters skipped are the blank and the five from tab to carriage return. */
  lemma SpaceIff(c: char)
    ensures IsSpace(c) <==> c as int == 32 || 9 <= c as int <= 13
  {}

  lemma {:induction false} SpaceSkipped(space: string, s: string)
    requires (forall c :: c in space ==> IsSpace(c)) && (s == "" || !IsSpace(s[0]))
    ensures SkipSpace(space + s) == s
  {
    if space == [] {
      assert space + s == s;
    } else {
      assert space[0] in space;
      TailOfConcat(space, s);
      SpaceSkipped(space[1..], s);
    }
  }

  lemma {:induction false} DigitsThen(digits: string, rest: string)
    requires (forall c :: c in digits ==> IsDigit(c)) && (rest == "" || !IsDigit(rest[0]))
    ensures DigitCount(digits + rest) == |digits|
  {
    if digits == [] {
      assert digits + rest == rest;
    } else {
      assert digits[0] in digits;
      TailOfConcat(digits, rest);
      DigitsThen(digits[1..], rest);
    }
  }

  // ----- The round trip -----

  lemma {:induction false} FindAt(s: string, c: char, n: nat)
    requires n < |s| && s[n] == c && c !in s[..n]
    ensures Find(s, c) == n
  {
    if n > 0 {
      assert s[0] in s[..n];
      assert s[1..][..n - 1] == s[..n][1..];
      FindAt(s[1..], c, n - 1);
    }
  }

  lemma {:induction false} LinesOfText(ls: seq<string>)
    requires forall l :: l in ls ==> '\n' !in l
    ensures Lines(Text(ls)) == ls
  {
    if ls != [] {
      hide Lines;
      assert ls[0] in ls && ls == [ls[0]] + ls[1..];
      FirstLine(ls[0], Text(ls[1..]));
      LinesOfText(ls[1..]);
    }
  }

  lemma LineIsPair(c: Config, key: string, val: string)
    requires key != "" && key[0] != '#' && '=' !in key
    ensures ApplyLine(c, Line(key, val)) == ApplyPair(c, key, val)
  {
    hide ApplyPair;
    var line := Line(key, val);
    assert line[..|key|] == key && line[|key|] == '=' && line[|key| + 1..] == val;
    FindAt(line, '=', |key|);
  }

  lemma PairNumbers(c: Config, d: Config)
    requires c.Fits()
    ensures ApplyLine(d, Line("server-port", Decimal(c.port))) == Some(d.(port := c.port))
    ensures ApplyLine(d, Line("server-portv6", Decimal(c.portIpv6))) == Some(d.(portIpv6 := c.portIpv6))
    ensures ApplyLine(d, Line("max-players", Decimal(c.maxPlayers))) == Some(d.(maxPlayers := c.maxPlayers))
  {
    hide ApplyLine, Line, Decimal, ParseNumber;
    LineIsPair(d, "server-port", Decimal(c.port));
    LineIsPair(d, "server-portv6", Decimal(c.portIpv6));
    LineIsPair(d, "max-players", Decimal(c.maxPlayers));
    NumberRoundTrip(c.port);
    NumberRoundTrip(c.portIpv6);
    NumberRoundTrip(c.maxPlayers);
  }

  lemma PairTexts(c: Config, d: Config)
    ensures ApplyLine(d, Line("server-name", c.serverName)) == Some(d.(serverName := c.serverName))
    ensures ApplyLine(d, Line("motd", c.motd)) == Some(d.(motd := c.motd))
    ensures ApplyLine(d, Line("gamemode", ToGameModeString(c.gameMode))) == Some(d.(gameMode := c.gameMode))
    ensures ApplyLine(d, Line("force-resources", if c.force then "1" else "0")) == Some(d.(force := c.force))
  {
    hide ApplyLine, Line, ToGameModeString, ParseGameMode;
    LineIsPair(d, "server-name", c.serverName);
    LineIsPair(d, "motd", c.motd);
    LineIsPair(d, "gamemode", ToGameModeString(c.gameMode));
    LineIsPair(d, "force-resources", if c.force then "1" else "0");
    GameModeRoundTrip(c.gameMode);
  }

  lemma ApplyFrom(c: Config, lines: seq<string>, i: nat, c': Config)
    requires i < |lines| && ApplyLine(c, lines[i]) == Some(c')
    ensures ApplyLines(c, lines[i..]) == ApplyLines(c', lines[i + 1..])
  {
    assert lines[i..][1..] == lines[i + 1..];
  }

  /** The printed lines, applied to any configuration, give the printed one. */
  lemma LinesRebuild(c: Config, d: Config)
    requires c.Fits()
    ensures ApplyLines(d, ConfigLines(c)) == Some(c)
  {
    hide ApplyLine, ApplyLines, Line, Decimal, ToGameModeString;
    var l := ConfigLines(c);
    var d1 := d.(port := c.port);
    var d2 := d1.(portIpv6 := c.portIpv6);
    var d3 := d2.(maxPlayers := c.maxPlayers);
    var d4 := d3.(serverName := c.serverName);
    var d5 := d4.(motd := c.motd);
    var d6 := d5.(gameMode := c.gameMode);
    var d7 := d6.(force := c.force);
    PairNumbers(c, d);
    PairNumbers(c, d1);
    PairNumbers(c, d2);
    PairTexts(c, d3);
    PairTexts(c, d4);
    PairTexts(c, d5);
    PairTexts(c, d6);
    ApplyFrom(d, l, 0, d1);
    ApplyFrom(d1, l, 1, d2);
    ApplyFrom(d2, l, 2, d3);
    ApplyFrom(d3, l, 3, d4);
    ApplyFrom(d4, l, 4, d5);
    ApplyFrom(d5, l, 5, d6);
    ApplyFrom(d6, l, 6, d7);
    ApplyNil(d7);
    assert l[0..] == l && l[7..] == [];
  }

  lemma ApplyNil(c: Config)
    ensures ApplyLines(c, []) == Some(c)
  {}

  lemma DigitsHaveNoNewline(s: string)
    requires forall c :: c in s ==> IsDigit(c)
    ensures '\n' !in s
  {}

  lemma NoNewlineInLine(key: string, val: string)
    requires '\n' !in key
    ensures '\n' !in Line(key, val) <==> '\n' !in val
  {
    if '\n' in val {
      var i :| 0 <= i < |val| && val[i] == '\n';
      assert Line(key, val)[|key| + 1 + i] == '\n';
    }
  }

  lemma NoNewlineInLines(c: Config)
    requires '\n' !in c.serverName && '\n' !in c.motd
    ensures forall l :: l in ConfigLines(c) ==> '\n' !in l
  {
    hide Line, Decimal;
    DigitsHaveNoNewline(Decimal(c.port));
    DigitsHaveNoNewline(Decimal(c.portIpv6));
    DigitsHaveNoNewline(Decimal(c.maxPlayers));
    NoNewlineInLine("server-port", Decimal(c.port));
    NoNewlineInLine("server-portv6", Decimal(c.portIpv6));
    NoNewlineInLine("max-players", Decimal(c.maxPlayers));
    NoNewlineInLine("server-name", c.serverName);
    NoNewlineInLine("motd", c.motd);
    NoNewlineInLine("gamemode", ToGameModeString(c.gameMode));
    NoNewlineInLine("force-resources", if c.force then "1" else "0");
  }

  /** Whatever the file says, no parsed text contains a newline. */
  lemma {:induction false} ParsedHasNoNewline(c: Config, lines: seq<string>)
    requires '\n' !in c.serverName && '\n' !in c.motd
    requires forall l :: l in lines ==> '\n' !in l
    ensures ApplyLines(c, lines).Some? ==>
              '\n' !in ApplyLines(c, lines).value.serverName && '\n' !in ApplyLines(c, lines).value.motd
    decreases |lines|
  {
    if lines != [] {
      var line := lines[0];
      assert line in lines;
      var next := ApplyLine(c, line);
      if next.Some? {
        ParsedHasNoNewline(next.value, lines[1..]);
      }
    }
  }

  /** Printing and parsing are inverse exactly for configurations whose texts have no newline. */
  lemma PropertiesRoundTripExactly(c: Config)
    requires c.Fits()
    ensures ApplyLines(DEFAULTS, Lines(Text(ConfigLines(c)))) == Some(c) <==>
            '\n' !in c.serverName && '\n' !in c.motd
  {
    hide ConfigLines, ApplyLines, Lines, Text;
    if '\n' !in c.serverName && '\n' !in c.motd {
      NoNewlineInLines(c);
      LinesOfText(ConfigLines(c));
      LinesRebuild(c, DEFAULTS);
    } else {
      ParsedHasNoNewline(DEFAULTS, Lines(Text(ConfigLines(c))));
    }
  }
}
