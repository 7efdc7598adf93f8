/** What configuration files say (srv/config.cpp): which are accepted, and what they set. */
module ConfigText {
  import opened Options
  import opened Sequences
  import opened CStrings
  import opened Numerals
  import opened Plugins

  // ---------- Words and names ----------

  lemma {:induction false} WordsAreTokens(s: string)
    ensures Words(s) == Tokens(s, SPACES)
    decreases |s|
  {
    hide StrTok, Tokens;
    StrTokTakesToken(s, SPACES);
    var (word, rest) := StrTok(s, SPACES);
    if word.Some? {
      WordsAreTokens(rest);
    }
  }

  predicate IsWord(s: string) {
    s != "" && forall c | c in s :: c !in SPACES
  }

  function AssignmentLine(key: string, value: string): string {
    key + " = " + value
  }

  lemma WordsOfAssignment(key: string, value: string)
    requires IsWord(key) && IsWord(value)
    ensures Words(AssignmentLine(key, value)) == [key, "=", value]
  {
    hide Words, StrTok;
    var line := AssignmentLine(key, value);
    assert line == key + [' '] + ("=" + [' '] + value);
    StrTokAt(key, ' ', "=" + [' '] + value, SPACES);
    StrTokAt("=", ' ', value, SPACES);
    WordsStep(line);
    WordsStep("=" + [' '] + value);
    LastWord(value);
    assert [key] + (["="] + [value]) == [key, "=", value];
  }

  lemma WordsStep(s: string)
    ensures var (word, rest) := StrTok(s, SPACES);
            Words(s) == if word.None? then [] else [word.value] + Words(rest)
  {
    hide StrTok;
  }

  lemma LastWord(word: string)
    requires IsWord(word)
    ensures Words(word) == [word]
  {
    hide Words, StrCSpn;
    WordsAreTokens(word);
    assert word[0] in word;
    TokensStart(word, SPACES);
    NoTokens(SPACES);
    assert StrCSpn(word, SPACES) == |word|;
    assert word[..|word|] == word;
  }

  function UpperChar(c: char): char {
    if 'a' <= c <= 'z' then (c as int - 32) as char else c
  }

  /** Upper and lower case name the same token. */
  lemma TokenIgnoresCase(table: seq<(string, Token)>, token: string)
    ensures TokenIn(table, Map(UpperChar, token)) == TokenIn(table, token)
  {
    SameTokens(table, Map(UpperChar, token), token);
  }

  lemma {:induction false} SameTokens(table: seq<(string, Token)>, a: string, b: string)
    requires SameButCase(a, b)
    ensures TokenIn(table, a) == TokenIn(table, b)
  {
    if table != [] {
      SameTokens(table[1..], a, b);
    }
  }

  lemma {:induction false} TokenAt(table: seq<(string, Token)>, token: string, i: nat)
    requires i < |table| && SameButCase(token, table[i].0)
    requires forall j | 0 <= j < i :: !SameButCase(token, table[j].0)
    ensures TokenIn(table, token) == table[i].1
  {
    hide SameButCase;
    if i > 0 {
      TokenAt(table[1..], token, i - 1);
    }
  }

  lemma Differ(a: string, b: string, i: nat)
    requires i < |a| && i < |b| && LowerChar(a[i]) != LowerChar(b[i])
    ensures !SameButCase(a, b)
  {
  }

  lemma SectionNames()
    ensures TokenIn(TOKENS, "[libs]") == SectionLibs && TokenIn(TOKENS, "[config]") == SectionConfig
  {
    hide TokenIn;
    TokenAt(TOKENS, "[libs]", 2);
    TokenAt(TOKENS, "[config]", 3);
  }

  lemma ActorNames()
    ensures TokenIn(TOKENS, "actor") == Actor && TokenIn(TOKENS, "com") == ActorAndNotify
  {
    hide TokenIn;
    Differ("actor", "[lib]", 0);
    TokenAt(TOKENS, "actor", 6);
    TokenAt(TOKENS, "com", 10);
  }

  lemma NotifyNames()
    ensures TokenIn(TOKENS, "notify") == Notify
  {
    hide TokenIn;
    Differ("notify", "[libs]", 0);
    TokenAt(TOKENS, "notify", 9);
  }

  lemma SlotNames()
    ensures TokenIn(TOKENS, "log") == LogSlot
  {
    hide TokenIn;
    Differ("log", "com", 0);
    TokenAt(TOKENS, "log", 12);
  }

  lemma ManagerNames()
    ensures TokenIn(TOKENS, "fault") == ManagerSlot
  {
    hide TokenIn;
    Differ("fault", "[lib]", 0);
    Differ("fault", "actor", 0);
    TokenAt(TOKENS, "fault", 15);
  }

  lemma TicName()
    ensures TokenIn(TOKENS, "tic") == TicLength
  {
    hide TokenIn;
    Differ("tic", "com", 0);
    Differ("tic", "log", 0);
    TokenAt(TOKENS, "tic", 17);
  }

  /** The words that the documentation's files use, and what they stand for. */
  lemma TokenNames()
    ensures TokenIn(TOKENS, "[libs]") == SectionLibs && TokenIn(TOKENS, "[config]") == SectionConfig
    ensures TokenIn(TOKENS, "actor") == Actor && TokenIn(TOKENS, "notify") == Notify
    ensures TokenIn(TOKENS, "com") == ActorAndNotify && TokenIn(TOKENS, "log") == LogSlot
    ensures TokenIn(TOKENS, "fault") == ManagerSlot && TokenIn(TOKENS, "tic") == TicLength
  {
    hide TokenIn;
    SectionNames();
    ActorNames();
    NotifyNames();
    SlotNames();
    ManagerNames();
    TicName();
  }

  // ---------- Tic lengths ----------

  /** A printed number is read in base 10, up to the range of an `unsigned long`; then it is an error. */
  lemma StoulOfDecimal(n: nat)
    ensures Stoul(Decimal(n)) == if n < TWO_TO_64 then Some(n) else None
    ensures Stoul("+" + Decimal(n)) == Stoul(Decimal(n))
    ensures n < TWO_TO_64 ==> Stoul("-" + Decimal(n)) == Some((TWO_TO_64 - n) % TWO_TO_64)
  {
    hide ReadDigits, Decimal;
    DecimalDigits(n);
    var d := Decimal(n);
    assert ("+" + d)[1..] == d && ("-" + d)[1..] == d;
    assert ("+" + d)[0] == '+' && ("-" + d)[0] == '-';
  }

  lemma DecimalDigits(n: nat)
    ensures Decimal(n) != [] && Decimal(n)[0] !in "+-" && Decimal(n)[0] != '-'
    ensures IsDigit(Decimal(n)[0], 10) && ReadDigits(Decimal(n), 10, 0) == n
  {
    hide ReadDigits;
    FirstDigit(n, 10);
    DigitIsPlain(Decimal(n)[0]);
    ReadPrinted(n, 10, []);
    assert Decimal(n) + [] == Decimal(n);
    NoDigits(n);
  }

  lemma NoDigits(acc: nat)
    ensures ReadDigits([], 10, acc) == acc
  {
  }

  lemma DecimalIsWord(n: nat)
    ensures IsWord(Decimal(n))
  {
    hide Decimal;
    forall c | c in Decimal(n) ensures c !in SPACES {
      PrintedDigit(n, c);
      DigitIsPlain(c);
    }
    DecimalDigits(n);
  }

  lemma PrintedDigit(n: nat, c: char)
    requires c in Decimal(n)
    ensures c in DIGITS
  {
    assert c in DIGITS[..10];
  }

  // ---------- Which files are accepted ----------

  /** The value suits the token: a number, or a registered plugin able to fill the slots. */
  predicate Suits(plugins: Registry, id: Token, value: string) {
    if id == TicLength then Stoul(value).Some?
    else
      && value in plugins
      && (id in {Actor, ActorAndNotify} ==> ComActor in plugins[value].plType)
      && (id in {Notify, ActorAndNotify} ==> ComExtern in plugins[value].plType)
      && (id == LogSlot ==> LoggerRole in plugins[value].plType)
      && (id == ManagerSlot ==> FaultManager in plugins[value].plType)
  }

  /** An assignment succeeds if and only if it has the right form and its value suits; only a number throws. */
  lemma AssignExactly(s: Settings, id: Token, words: seq<string>)
    ensures Assign(s, id, words).1 == Continue <==> |words| >= 2 && words[0] == "=" && Suits(s.plugins, id, words[1])
    ensures Assign(s, id, words).1 == Throw <==>
              |words| >= 2 && words[0] == "=" && id == TicLength && Stoul(words[1]).None?
    ensures Assign(s, id, words).0.plugins == s.plugins && Assign(s, id, words).0.section == s.section
  {
    hide Stoul;
  }

  /** `com` for a plugin that can only act is an error, but has assigned the actor by then; nothing else has changed. */
  lemma FailedAssignment(s: Settings, id: Token, words: seq<string>)
    requires Assign(s, id, words).1 != Continue
    ensures Assign(s, id, words).0
         == if |words| >= 2 && words[0] == "=" && id == ActorAndNotify && HasType(s.plugins, words[1], ComActor)
            then s.(actor := Some(words[1])) else s
  {
    hide Stoul;
  }

  /** A key and its value in the configuration section. */
  datatype Setting = Setting(key: string, value: string)

  predicate WellFormed(a: Setting) {
    && IsWord(a.key) && IsWord(a.value) && a.key[0] != '#'
    && TokenIn(TOKENS, a.key) !in {SectionConfig, SectionLibs}
  }

  function LineOf(a: Setting): string {
    AssignmentLine(a.key, a.value)
  }

  lemma OneAssignmentLine(s: Settings, a: Setting, load: (string, seq<string>) -> Library)
    requires s.section != InLibs && WellFormed(a)
    ensures ReadConfigLine(s, LineOf(a), load) == Assign(s, TokenIn(TOKENS, a.key), ["=", a.value])
  {
    hide Words, TokenIn, Assign;
    WordsOfAssignment(a.key, a.value);
    assert Words(LineOf(a))[1..] == ["=", a.value];
    assert a.key[..1] == [a.key[0]];
  }

  /** Assignments are all accepted if and only if each value suits its key. */
  lemma {:induction false} AcceptedExactly(s: Settings, settings: seq<Setting>, load: (string, seq<string>) -> Library)
    requires s.section != InLibs && forall a | a in settings :: WellFormed(a)
    ensures ReadConfig(s, Map(LineOf, settings), load).1 == Continue
       <==> forall a | a in settings :: Suits(s.plugins, TokenIn(TOKENS, a.key), a.value)
    decreases settings
  {
    hide ReadConfigLine, Suits, TokenIn, LineOf, WellFormed, Assign;
    var lines := Map(LineOf, settings);
    if settings != [] {
      var a := settings[0];
      assert a in settings;
      OneAssignmentLine(s, a, load);
      AssignExactly(s, TokenIn(TOKENS, a.key), ["=", a.value]);
      var next := ReadConfigLine(s, lines[0], load).0;
      assert lines[1..] == Map(LineOf, settings[1..]);
      AcceptedExactly(next, settings[1..], load);
      assert settings == [a] + settings[1..];
    }
  }

  lemma {:induction false} ReadConfigAppend(s: Settings, before: seq<string>, behind: seq<string>,
                                            load: (string, seq<string>) -> Library)
    requires ReadConfig(s, before, load).1 == Continue
    ensures ReadConfig(s, before + behind, load) == ReadConfig(ReadConfig(s, before, load).0, behind, load)
    decreases |before|
  {
    hide ReadConfigLine;
    if before == [] {
      assert before + behind == behind;
    } else {
      HeadOfAppend(before, behind);
      ReadConfigAppend(ReadConfigLine(s, before[0], load).0, before[1..], behind, load);
    }
  }

  /** A line that begins with `#`, and one without words, does nothing. */
  lemma CommentIgnored(s: Settings, line: string, load: (string, seq<string>) -> Library)
    requires (line != "" && line[0] == '#') || forall c | c in line :: c in SPACES
    ensures ReadConfigLine(s, line, load) == (s, Continue)
  {
    hide Words, TokenIn, StrCSpn, RegisterAll, Assign;
    WordsAreTokens(line);
    if line != "" && line[0] == '#' {
      TokensStart(line, SPACES);
      assert StrCSpn(line, SPACES) > 0;
      assert line[..StrCSpn(line, SPACES)][..1] == "#";
    } else {
      OnlyDelims(line);
    }
  }

  lemma {:induction false} OnlyDelims(line: string)
    requires forall c | c in line :: c in SPACES
    ensures Tokens(line, SPACES) == []
  {
    if line != "" {
      assert line[0] in line;
      OnlyDelims(line[1..]);
    }
  }

  /** Behind `[libs]` a line's first word is a library, its other words are the library's arguments. */
  lemma LibraryLine(s: Settings, line: string, load: (string, seq<string>) -> Library)
    requires var words := Tokens(line, SPACES);
             words != [] && !("#" <= words[0]) && TokenIn(TOKENS, words[0]) !in {SectionConfig, SectionLibs}
    requires s.section == InLibs
    ensures var words := Tokens(line, SPACES);
            var lib := load(words[0], words[1..]);
            ReadConfigLine(s, line, load)
            == (s.(plugins := RegisterAll(s.plugins, lib.plugins)), if lib.succeeds then Continue else Fail)
  {
    hide Words, TokenIn, RegisterAll, Assign, Tokens;
    WordsAreTokens(line);
    assert Words(line)[0] in Words(line);
    assert Words(line)[0][..1] == [Words(line)[0][0]];
  }

  lemma LibsSection(s: Settings, load: (string, seq<string>) -> Library)
    ensures ReadConfigLine(s, "[libs]", load) == (s.(section := InLibs), Continue)
  {
    hide Words, TokenIn;
    assert IsWord("[libs]");
    LastWord("[libs]");
    assert "[libs]"[..1] == "[";
    SectionNames();
  }

  lemma ConfigSection(s: Settings, load: (string, seq<string>) -> Library)
    ensures ReadConfigLine(s, "[config]", load) == (s.(section := InConfig), Continue)
  {
    hide Words, TokenIn;
    assert IsWord("[config]");
    LastWord("[config]");
    assert "[config]"[..1] == "[";
    SectionNames();
  }

  /** Whatever the file begins with: a tic length printed on its last line is the one that is used. */
  lemma TicLengthRead(s: Settings, before: seq<string>, n: nat, load: (string, seq<string>) -> Library)
    requires ReadConfig(s, before, load).1 == Continue
    ensures var (t, outcome) := ReadConfig(s, before + ["[config]", AssignmentLine("tic", Decimal(n))], load);
            if n < TWO_TO_64 then
              outcome == Continue && t == ReadConfig(s, before, load).0.(section := InConfig, tic := n)
            else outcome == Throw
  {
    hide ReadConfigLine, Decimal, TokenIn, Stoul, AssignmentLine;
    var lines := ["[config]", AssignmentLine("tic", Decimal(n))];
    var a := Setting("tic", Decimal(n));
    var here := ReadConfig(s, before, load).0;
    ReadConfigAppend(s, before, lines, load);
    ConfigSection(here, load);
    TicName();
    DecimalIsWord(n);
    StoulOfDecimal(n);
    assert WellFormed(a) by {
      assert IsWord("tic") && "tic"[0] == 't';
    }
    OneAssignmentLine(here.(section := InConfig), a, load);
    TwoLines(here, lines[0], lines[1], load);
    assert lines == [lines[0], lines[1]];
  }

  lemma TwoLines(s: Settings, a: string, b: string, load: (string, seq<string>) -> Library)
    requires ReadConfigLine(s, a, load).1 == Continue
    ensures ReadConfig(s, [a, b], load) == ReadConfigLine(ReadConfigLine(s, a, load).0, b, load)
  {
    hide ReadConfigLine;
    var t := ReadConfigLine(s, a, load).0;
    assert [a, b][1..] == [b] && [b][1..] == [];
    assert ReadConfig(t, [b], load) == ReadConfigLine(t, b, load);
  }

  // ---------- What is registered ----------

  /** The first of the plugins that has the name, if there is one. */
  function FirstNamed(plugins: seq<(string, Roles)>, name: string): (i: nat)
    ensures i <= |plugins| && (forall j | 0 <= j < i :: plugins[j].0 != name)
    ensures i < |plugins| ==> plugins[i].0 == name
  {
    if plugins == [] || plugins[0].0 == name then 0 else 1 + FirstNamed(plugins[1..], name)
  }

  /** The first plugin of each new name is registered, with its own capabilities and no role; known ones stay. */
  lemma {:induction false} RegisteredExactly(r: Registry, plugins: seq<(string, Roles)>, name: string)
    ensures var t := RegisterAll(r, plugins);
            var i := FirstNamed(plugins, name);
            && (name in t <==> name in r || i < |plugins|)
            && (name in r ==> t[name] == r[name])
            && (name !in r && i < |plugins| ==> t[name] == Entry(plugins[i].1, {}))
    decreases plugins
  {
    if plugins != [] {
      RegisteredExactly(Register(r, plugins[0].0, plugins[0].1), plugins[1..], name);
    }
  }
}
