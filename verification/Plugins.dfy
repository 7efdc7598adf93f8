/**
 The plugin registry with its roles (srv/plugin_internal.cpp), the configuration file
 (srv/config.cpp) and the start-up that combines them (srv/main.cpp, srv/server.cpp).
 */
module Plugins {
  import opened Options
  import opened CStrings
  import opened Numerals

  /** The flags of a `plugin_type_t`; a mask is the set of its flags. */
  datatype Role = ComActor | ComExtern | FaultManager | LoggerRole | Topology | OtherRole
  type Roles = set<Role>

  /** What a plugin is able to do, and what it is used for. */
  datatype Entry = Entry(plType: Roles, role: Roles)

  /** Registration refuses a second plugin of the same name, so a name stands for its plugin. */
  type Registry = map<string, Entry>

  predicate HasType(r: Registry, name: string, t: Role) {
    name in r && t in r[name].plType
  }

  /** Every role stays within its plugin's capabilities. */
  predicate RolesFit(r: Registry) {
    forall p | p in r :: r[p].role <= r[p].plType
  }

  function Register(r: Registry, name: string, plType: Roles): Registry {
    if name in r then r else r[name := Entry(plType, {})]
  }

  function AddRole(r: Registry, name: Option<string>, role: Roles): Registry {
    if name.None? || name.value !in r || !(role <= r[name.value].plType) then r
    else r[name.value := r[name.value].(role := r[name.value].role + role)]
  }

  function SetRole(r: Registry, name: Option<string>, role: Roles): Registry {
    if name.None? || name.value !in r || !(role <= r[name.value].plType) then r
    else r[name.value := r[name.value].(role := role)]
  }

  class PluginManager {
    var plugins: Registry

    constructor ()
      ensures plugins == map[]
    {
      plugins := map[];
    }

    method RegisterPlugin(name: string, plType: Roles) returns (r: int)
      modifies this
      ensures plugins == Register(old(plugins), name, plType)
      ensures r == if name in old(plugins) then -1 else 0
    {
      if name in plugins {
        return -1;
      }
      plugins := plugins[name := Entry(plType, {})];
      return 0;
    }

    method GetByName(name: string) returns (p: Option<string>)
      ensures p == if name in plugins then Some(name) else None
    {
      p := if name in plugins then Some(name) else None;
    }

    /** Fails, changing nothing, exactly for no plugin or a role beyond its capabilities. */
    method AddRoleTo(pl: Option<string>, role: Roles) returns (r: int)
      requires pl.Some? ==> pl.value in plugins
      modifies this
      ensures plugins == AddRole(old(plugins), pl, role)
      ensures r == 0 <==> pl.Some? && role <= old(plugins)[pl.value].plType
    {
      if pl == None || !(role <= plugins[pl.value].plType) {
        return -1;
      }
      plugins := plugins[pl.value := plugins[pl.value].(role := plugins[pl.value].role + role)];
      return 0;
    }

    method SetRoleOf(pl: Option<string>, role: Roles) returns (r: int)
      requires pl.Some? ==> pl.value in plugins
      modifies this
      ensures plugins == SetRole(old(plugins), pl, role)
      ensures r == 0 <==> pl.Some? && role <= old(plugins)[pl.value].plType
    {
      if pl == None || !(role <= plugins[pl.value].plType) {
        return -1;
      }
      plugins := plugins[pl.value := plugins[pl.value].(role := role)];
      return 0;
    }
  }

  /** Everything that changes a registry. */
  datatype Change =
    | Registered(name: string, plType: Roles)
    | RoleAdded(pl: Option<string>, role: Roles)
    | RoleSet(pl: Option<string>, role: Roles)

  function AfterChange(r: Registry, c: Change): Registry {
    match c
    case Registered(name, plType) => Register(r, name, plType)
    case RoleAdded(pl, role) => AddRole(r, pl, role)
    case RoleSet(pl, role) => SetRole(r, pl, role)
  }

  function AfterChanges(r: Registry, changes: seq<Change>): Registry
    decreases |changes|
  {
    if changes == [] then r else AfterChanges(AfterChange(r, changes[0]), changes[1..])
  }

  /** The plugins of one registry are in the other, able to do the same. */
  predicate PluginsKept(r: Registry, t: Registry) {
    forall p | p in r :: p in t && t[p].plType == r[p].plType
  }

  /**
   Over any sequence of registrations and changes of roles, from any registry whose roles fit, as
   the empty one's do: no role goes beyond its plugin's capabilities, no plugin is lost and none
   changes its capabilities.
   */
  lemma {:induction false} RolesStayFit(r: Registry, changes: seq<Change>)
    requires RolesFit(r)
    ensures RolesFit(AfterChanges(r, changes)) && PluginsKept(r, AfterChanges(r, changes))
    decreases |changes|
  {
    if changes != [] {
      RolesStayFit(AfterChange(r, changes[0]), changes[1..]);
    }
  }

  // ---------- The configuration file ----------

  datatype Token =
    | SectionConfig | SectionLibs
    | Actor | Notify | ActorAndNotify | LogSlot | ManagerSlot | TicLength
    | NoToken

  const TOKENS: seq<(string, Token)> :=
    [("[library]", SectionLibs), ("[lib]", SectionLibs), ("[libs]", SectionLibs), ("[config]", SectionConfig),
     ("com-actor", Actor), ("com_actor", Actor), ("actor", Actor),
     ("com-notify", Notify), ("com_notify", Notify), ("notify", Notify), ("com", ActorAndNotify),
     ("logger", LogSlot), ("log", LogSlot),
     ("fault-manager", ManagerSlot), ("fault_manager", ManagerSlot), ("fault", ManagerSlot), ("manager", ManagerSlot),
     ("tic", TicLength), ("tik", TicLength)]

  function LowerChar(c: char): char {
    if 'A' <= c <= 'Z' then (c as int + 32) as char else c
  }

  /** `strcasecmp(a, b) == 0`. */
  predicate SameButCase(a: string, b: string) {
    |a| == |b| && forall i | 0 <= i < |a| :: LowerChar(a[i]) == LowerChar(b[i])
  }

  function TokenIn(table: seq<(string, Token)>, token: string): Token {
    if table == [] then NoToken
    else if SameButCase(token, table[0].0) then table[0].1
    else TokenIn(table[1..], token)
  }

  method GetTokenIdentifyer(tk: string) returns (id: Token)
    ensures id == TokenIn(TOKENS, tk)
  {
    hide SameButCase;
    var table := TOKENS;
    assert table[0..] == table;
    for i := 0 to |table|
      invariant TokenIn(TOKENS, tk) == TokenIn(table[i..], tk)
    {
      assert table[i..][1..] == table[i + 1..];
      if SameButCase(tk, table[i].0) {
        return table[i].1;
      }
    }
    id := NoToken;
  }

  /** The words `operator>>` takes from a line. */
  function Words(s: string): (words: seq<string>)
    ensures forall w | w in words :: w != []
    decreases |s|
  {
    var (word, rest) := StrTok(s, SPACES);
    if word.None? then [] else [word.value] + Words(rest)
  }

  /** `std::stoul` of a word, in base 10; `None` when it throws. */
  function Stoul(s: string): Option<nat> {
    var digits := if s != [] && s[0] in "+-" then s[1..] else s;
    if digits == [] || !IsDigit(digits[0], 10) then None
    else
      var m := ReadDigits(digits, 10, 0);
      if m >= TWO_TO_64 then None else Some(if s[0] == '-' then (TWO_TO_64 - m) % TWO_TO_64 else m)
  }

  datatype Section = NoSection | InConfig | InLibs

  datatype Settings = Settings(plugins: Registry, actor: Option<string>, notify: Option<string>,
                               logger: Option<string>, manager: Option<string>, tic: nat, section: Section)

  datatype Outcome = Continue | Fail | Throw | AlreadyLoaded

  /** What loading a library does: it registers plugins, and its `init` succeeds or fails. */
  datatype Library = Library(plugins: seq<(string, Roles)>, succeeds: bool)

  function RegisterAll(r: Registry, plugins: seq<(string, Roles)>): Registry
    decreases plugins
  {
    if plugins == [] then r else RegisterAll(Register(r, plugins[0].0, plugins[0].1), plugins[1..])
  }

  function SetNotify(s: Settings, value: string): (Settings, Outcome) {
    if HasType(s.plugins, value, ComExtern) then (s.(notify := Some(value)), Continue) else (s, Fail)
  }

  /** `set_config`, with the words after the token. */
  function Assign(s: Settings, id: Token, words: seq<string>): (Settings, Outcome) {
    if |words| < 2 || words[0] != "=" then (s, Fail)
    else
      var value := words[1];
      if id == TicLength then
        match Stoul(value)
        case None => (s, Throw)
        case Some(length) => (s.(tic := length), Continue)
      else if value !in s.plugins then (s, Fail)
      else
        match id
        case Actor =>
          if HasType(s.plugins, value, ComActor) then (s.(actor := Some(value)), Continue) else (s, Fail)
        case ActorAndNotify =>
          if HasType(s.plugins, value, ComActor) then SetNotify(s.(actor := Some(value)), value) else (s, Fail)
        case Notify => SetNotify(s, value)
        case LogSlot =>
          if HasType(s.plugins, value, LoggerRole) then (s.(logger := Some(value)), Continue) else (s, Fail)
        case ManagerSlot =>
          if HasType(s.plugins, value, FaultManager) then (s.(manager := Some(value)), Continue) else (s, Fail)
        case _ => (s, Continue)
  }

  /** One line of the file. */
  function ReadConfigLine(s: Settings, line: string, load: (string, seq<string>) -> Library): (Settings, Outcome) {
    var words := Words(line);
    if words == [] || words[0][..1] == "#" then (s, Continue)
    else
      var id := TokenIn(TOKENS, words[0]);
      if id == SectionConfig then (s.(section := InConfig), Continue)
      else if id == SectionLibs then (s.(section := InLibs), Continue)
      else if s.section == InLibs then
        var lib := load(words[0], words[1..]);
        (s.(plugins := RegisterAll(s.plugins, lib.plugins)), if lib.succeeds then Continue else Fail)
      else Assign(s, id, words[1..])
  }

  function ReadConfig(s: Settings, lines: seq<string>, load: (string, seq<string>) -> Library): (Settings, Outcome)
    decreases |lines|
  {
    if lines == [] then (s, Continue)
    else
      var (s', outcome) := ReadConfigLine(s, lines[0], load);
      if outcome == Continue then ReadConfig(s', lines[1..], load) else (s', outcome)
  }

  const UNCONFIGURED := Settings(map[], None, None, None, None, 0, NoSection)

  class Config {
    const manager: PluginManager
    var comActor: Option<string>
    var comNotify: Option<string>
    var logger: Option<string>
    var faultManager: Option<string>
    var tic: nat
    var isLoaded: bool

    constructor (manager: PluginManager)
      ensures this.manager == manager && !isLoaded
      ensures comActor == None && comNotify == None && logger == None && faultManager == None && tic == 0
    {
      this.manager := manager;
      comActor, comNotify, logger, faultManager := None, None, None, None;
      tic, isLoaded := 0, false;
    }

    function Current(section: Section): Settings
      reads this, manager
    {
      Settings(manager.plugins, comActor, comNotify, logger, faultManager, tic, section)
    }

    method SetConfig(id: Token, words: seq<string>, ghost section: Section) returns (outcome: Outcome)
      modifies this
      ensures (Current(section), outcome) == Assign(old(Current(section)), id, words)
      ensures isLoaded == old(isLoaded)
    {
      hide Stoul;
      if |words| == 0 || words[0] != "=" {
        return Fail;
      }
      if |words| == 1 {
        return Fail;
      }
      var value := words[1];
      var plugin: Option<string> := None;
      if id != TicLength {
        plugin := manager.GetByName(value);
        if plugin == None {
          return Fail;
        }
      }
      match id {
      case ActorAndNotify =>
        if !HasType(manager.plugins, value, ComActor) {
          return Fail;
        }
        comActor := plugin;
        if !HasType(manager.plugins, value, ComExtern) {
          return Fail;
        }
        comNotify := plugin;
      case Actor =>
        if !HasType(manager.plugins, value, ComActor) {
          return Fail;
        }
        comActor := plugin;
      case Notify =>
        if !HasType(manager.plugins, value, ComExtern) {
          return Fail;
        }
        comNotify := plugin;
      case LogSlot =>
        if !HasType(manager.plugins, value, LoggerRole) {
          return Fail;
        }
        logger := plugin;
      case ManagerSlot =>
        if !HasType(manager.plugins, value, FaultManager) {
          return Fail;
        }
        faultManager := plugin;
      case TicLength =>
        var length := Stoul(value);
        if length == None {
          return Throw;
        }
        tic := length.value;
      case _ =>
      }
      outcome := Continue;
    }

    method LoadLib(name: string, args: seq<string>, load: (string, seq<string>) -> Library, ghost section: Section)
      returns (outcome: Outcome)
      modifies manager
      ensures var plugins := RegisterAll(old(manager.plugins), load(name, args).plugins);
              Current(section) == old(Current(section)).(plugins := plugins)
      ensures outcome == if load(name, args).succeeds then Continue else Fail
      ensures unchanged(this)
    {
      var lib := load(name, args);
      assert lib.plugins[0..] == lib.plugins;
      for i := 0 to |lib.plugins|
        invariant RegisterAll(manager.plugins, lib.plugins[i..]) == RegisterAll(old(manager.plugins), lib.plugins)
        invariant unchanged(this)
      {
        assert lib.plugins[i..][1..] == lib.plugins[i + 1..];
        var _ := manager.RegisterPlugin(lib.plugins[i].0, lib.plugins[i].1);
      }
      outcome := if lib.succeeds then Continue else Fail;
    }

    /** Reads the file, if it can be opened, line by line up to the first error; but only once. */
    method LoadConfig(file: Option<seq<string>>, load: (string, seq<string>) -> Library) returns (outcome: Outcome)
      modifies this, manager
      ensures old(isLoaded) || file == None ==>
                Current(NoSection) == old(Current(NoSection)) && isLoaded == old(isLoaded)
                && outcome == if old(isLoaded) then AlreadyLoaded else Fail
      ensures !old(isLoaded) && file.Some? ==>
                var r := ReadConfig(old(Current(NoSection)), file.value, load);
                outcome == r.1 && Current(r.0.section) == r.0 && (isLoaded <==> outcome == Continue)
    {
      hide Words, Assign, RegisterAll, TokenIn;
      if isLoaded {
        return AlreadyLoaded;
      }
      if file == None {
        return Fail;
      }
      var section, lines := NoSection, file.value;
      assert lines[0..] == lines;
      for i := 0 to |lines|
        invariant !isLoaded
        invariant ReadConfig(old(Current(NoSection)), lines, load) == ReadConfig(Current(section), lines[i..], load)
      {
        assert lines[i..][1..] == lines[i + 1..];
        ghost var next := ReadConfigLine(Current(section), lines[i], load);
        var words := Words(lines[i]);
        assert words != [] ==> words[0] in words;
        if words == [] || words[0][..1] == "#" {
          continue;
        }
        var id := GetTokenIdentifyer(words[0]);
        if id == SectionConfig {
          section := InConfig;
          continue;
        }
        if id == SectionLibs {
          section := InLibs;
          continue;
        }
        if section == InLibs {
          outcome := LoadLib(words[0], words[1..], load, section);
        } else {
          outcome := SetConfig(id, words[1..], section);
        }
        assert next == (Current(section), outcome);
        if outcome != Continue {
          return;
        }
      }
      isLoaded := true;
      outcome := Continue;
    }
  }

  // ---------- What start-up guarantees ----------

  /** Every slot is empty or holds a registered plugin able to fill it. */
  predicate SlotsSound(s: Settings) {
    && (s.actor.Some? ==> HasType(s.plugins, s.actor.value, ComActor))
    && (s.notify.Some? ==> HasType(s.plugins, s.notify.value, ComExtern))
    && (s.logger.Some? ==> HasType(s.plugins, s.logger.value, LoggerRole))
    && (s.manager.Some? ==> HasType(s.plugins, s.manager.value, FaultManager))
  }

  predicate NoRoles(r: Registry) {
    forall p | p in r :: r[p].role == {}
  }

  lemma {:induction false} RegisterAllKeeps(r: Registry, plugins: seq<(string, Roles)>)
    ensures forall p | p in r :: p in RegisterAll(r, plugins) && RegisterAll(r, plugins)[p] == r[p]
    ensures NoRoles(r) ==> NoRoles(RegisterAll(r, plugins))
    decreases plugins
  {
    if plugins != [] {
      RegisterAllKeeps(Register(r, plugins[0].0, plugins[0].1), plugins[1..]);
    }
  }

  lemma AssignKeepsSound(s: Settings, id: Token, words: seq<string>)
    requires SlotsSound(s)
    ensures var t := Assign(s, id, words).0; SlotsSound(t) && t.plugins == s.plugins
  {
    hide Stoul;
  }

  lemma LineKeepsSound(s: Settings, line: string, load: (string, seq<string>) -> Library)
    requires SlotsSound(s) && NoRoles(s.plugins)
    ensures var t := ReadConfigLine(s, line, load).0; SlotsSound(t) && NoRoles(t.plugins)
  {
    hide Words, TokenIn, Assign, RegisterAll, NoRoles;
    var words := Words(line);
    if words != [] {
      RegisterAllKeeps(s.plugins, load(words[0], words[1..]).plugins);
      AssignKeepsSound(s, TokenIn(TOKENS, words[0]), words[1..]);
    }
  }

  /** Whatever the file says, and also after an error in it, every slot is sound. */
  lemma {:induction false} SlotsAlwaysSound(s: Settings, lines: seq<string>, load: (string, seq<string>) -> Library)
    requires SlotsSound(s) && NoRoles(s.plugins)
    ensures var t := ReadConfig(s, lines, load).0; SlotsSound(t) && NoRoles(t.plugins)
    decreases |lines|
  {
    hide SlotsSound, NoRoles, ReadConfigLine;
    if lines != [] {
      LineKeepsSound(s, lines[0], load);
      SlotsAlwaysSound(ReadConfigLine(s, lines[0], load).0, lines[1..], load);
    }
  }

  /** The section that goes on behind a line. */
  function SectionAfter(section: Section, line: string): Section {
    var words := Words(line);
    if words == [] || words[0][..1] == "#" then section
    else
      match TokenIn(TOKENS, words[0])
      case SectionConfig => InConfig
      case SectionLibs => InLibs
      case _ => section
  }

  /** What a line assigns to: a token and its value. */
  function Assignment(section: Section, line: string): Option<(Token, string)> {
    var words := Words(line);
    if |words| <= 2 || words[0][..1] == "#" || section == InLibs then None
    else
      var id := TokenIn(TOKENS, words[0]);
      if id == SectionConfig || id == SectionLibs then None else Some((id, words[2]))
  }

  /** The value on the last line that assigns to one of the given tokens. */
  function LastAssigned(section: Section, lines: seq<string>, ids: set<Token>, before: Option<string>): Option<string>
    decreases |lines|
  {
    if lines == [] then before
    else
      var a := Assignment(section, lines[0]);
      LastAssigned(SectionAfter(section, lines[0]), lines[1..], ids,
                   if a.Some? && a.value.0 in ids then Some(a.value.1) else before)
  }

  /** What was assigned before matters only if nothing is assigned later. */
  lemma {:induction false} LastAssignedElse(section: Section, lines: seq<string>, ids: set<Token>,
                                            before: Option<string>)
    ensures var last := LastAssigned(section, lines, ids, None);
            LastAssigned(section, lines, ids, before) == if last.Some? then last else before
    decreases |lines|
  {
    hide Assignment, SectionAfter;
    if lines != [] {
      var a := Assignment(section, lines[0]);
      LastAssignedElse(SectionAfter(section, lines[0]), lines[1..], ids, before);
      if a.Some? {
        LastAssignedElse(SectionAfter(section, lines[0]), lines[1..], ids, Some(a.value.1));
      }
    }
  }

  /** The settings when the token has been assigned the value. */
  predicate Filled(s: Settings, t: Settings, id: Token, value: string) {
    && t.actor == (if id in {Actor, ActorAndNotify} then Some(value) else s.actor)
    && t.notify == (if id in {Notify, ActorAndNotify} then Some(value) else s.notify)
    && t.logger == (if id == LogSlot then Some(value) else s.logger)
    && t.manager == (if id == ManagerSlot then Some(value) else s.manager)
    && if id == TicLength then Stoul(value) == Some(t.tic) else t.tic == s.tic
  }

  lemma AssignFills(s: Settings, id: Token, words: seq<string>)
    requires Assign(s, id, words).1 == Continue
    ensures |words| >= 2
    ensures var t := Assign(s, id, words).0; t.section == s.section && Filled(s, t, id, words[1])
  {
    hide Stoul;
  }

  lemma LineFills(s: Settings, line: string, load: (string, seq<string>) -> Library)
    requires ReadConfigLine(s, line, load).1 == Continue
    ensures var (t, a) := (ReadConfigLine(s, line, load).0, Assignment(s.section, line));
            && t.section == SectionAfter(s.section, line)
            && if a.Some? then Filled(s, t, a.value.0, a.value.1)
               else t.actor == s.actor && t.notify == s.notify && t.logger == s.logger && t.manager == s.manager
                    && t.tic == s.tic
  {
    hide Words, TokenIn, RegisterAll, Assign, Filled;
    var words := Words(line);
    if words != [] && Assign(s, TokenIn(TOKENS, words[0]), words[1..]).1 == Continue {
      AssignFills(s, TokenIn(TOKENS, words[0]), words[1..]);
    }
  }

  /**
   In a file without errors the last assignment to a slot wins, `com` counting for both com slots,
   and so does the last tic length.
   */
  lemma {:induction false} LastAssignmentWins(s: Settings, lines: seq<string>, load: (string, seq<string>) -> Library)
    requires ReadConfig(s, lines, load).1 == Continue
    ensures var t := ReadConfig(s, lines, load).0;
            && t.actor == LastAssigned(s.section, lines, {Actor, ActorAndNotify}, s.actor)
            && t.notify == LastAssigned(s.section, lines, {Notify, ActorAndNotify}, s.notify)
            && t.logger == LastAssigned(s.section, lines, {LogSlot}, s.logger)
            && t.manager == LastAssigned(s.section, lines, {ManagerSlot}, s.manager)
            && var length := LastAssigned(s.section, lines, {TicLength}, None);
               if length.None? then t.tic == s.tic else Stoul(length.value) == Some(t.tic)
    decreases |lines|
  {
    hide ReadConfigLine, Assignment, SectionAfter, Stoul;
    if lines != [] {
      var next := ReadConfigLine(s, lines[0], load).0;
      var a := Assignment(s.section, lines[0]);
      LineFills(s, lines[0], load);
      if a.Some? {
        LastAssignedElse(next.section, lines[1..], {TicLength}, Some(a.value.1));
      }
      LastAssignmentWins(next, lines[1..], load);
    }
  }

  /** The roles `main` hands out for the configured slots: first three, then the fault manager's. */
  function ThreeRoles(s: Settings): Registry {
    AddRole(AddRole(AddRole(s.plugins, s.actor, {ComActor}), s.notify, {ComExtern}), s.logger, {LoggerRole})
  }

  function MainRoles(s: Settings): Registry {
    AddRole(ThreeRoles(s), s.manager, {FaultManager})
  }

  /** What the slots make a plugin's role. */
  function SlotRoles(s: Settings, p: string): Roles {
    (if s.actor == Some(p) then {ComActor} else {})
    + (if s.notify == Some(p) then {ComExtern} else {})
    + (if s.logger == Some(p) then {LoggerRole} else {})
    + (if s.manager == Some(p) then {FaultManager} else {})
  }

  /** Giving a slot's role to a plugin able to fill it succeeds and changes nothing else. */
  lemma SlotRoleGiven(r: Registry, slot: Option<string>, role: Role, p: string)
    requires (slot.Some? ==> HasType(r, slot.value, role)) && p in r
    ensures var t := AddRole(r, slot, {role});
            && t.Keys == r.Keys
            && t[p] == Entry(r[p].plType, r[p].role + if slot == Some(p) then {role} else {})
  {
  }

  lemma TypesKept(r: Registry, slot: Option<string>, role: Roles, name: string, t: Role)
    requires HasType(r, name, t)
    ensures HasType(AddRole(r, slot, role), name, t)
  {
  }

  /** A slot that could be filled still can when another one's role has been given. */
  lemma StillFits(r: Registry, given: Option<string>, role: Roles, slot: Option<string>, t: Role)
    requires slot.Some? ==> HasType(r, slot.value, t)
    ensures slot.Some? ==> HasType(AddRole(r, given, role), slot.value, t)
  {
    hide HasType, AddRole;
    if slot.Some? {
      TypesKept(r, given, role, slot.value, t);
    }
  }

  lemma ThreeRolesGiven(s: Settings, p: string)
    requires SlotsSound(s) && p in s.plugins
    ensures var t := ThreeRoles(s);
            && t.Keys == s.plugins.Keys && (s.manager.Some? ==> HasType(t, s.manager.value, FaultManager))
            && t[p] == Entry(s.plugins[p].plType,
                             s.plugins[p].role + (if s.actor == Some(p) then {ComActor} else {})
                             + (if s.notify == Some(p) then {ComExtern} else {})
                             + (if s.logger == Some(p) then {LoggerRole} else {}))
  {
    hide AddRole, HasType;
    var actor := AddRole(s.plugins, s.actor, {ComActor});
    var notify := AddRole(actor, s.notify, {ComExtern});
    StillFits(s.plugins, s.actor, {ComActor}, s.notify, ComExtern);
    StillFits(s.plugins, s.actor, {ComActor}, s.logger, LoggerRole);
    StillFits(s.plugins, s.actor, {ComActor}, s.manager, FaultManager);
    StillFits(actor, s.notify, {ComExtern}, s.logger, LoggerRole);
    StillFits(actor, s.notify, {ComExtern}, s.manager, FaultManager);
    StillFits(notify, s.logger, {LoggerRole}, s.manager, FaultManager);
    SlotRoleGiven(s.plugins, s.actor, ComActor, p);
    SlotRoleGiven(actor, s.notify, ComExtern, p);
    SlotRoleGiven(notify, s.logger, LoggerRole, p);
  }

  /**
   After the configuration is read, `add_role` refuses no configured slot: each plugin's role
   is exactly the slots it fills, and within its capabilities.
   */
  lemma MainRolesGiven(s: Settings, p: string)
    requires SlotsSound(s) && NoRoles(s.plugins) && p in s.plugins
    ensures MainRoles(s).Keys == s.plugins.Keys
    ensures MainRoles(s)[p] == Entry(s.plugins[p].plType, SlotRoles(s, p))
    ensures SlotRoles(s, p) <= s.plugins[p].plType
  {
    SlotsWithinTypes(s, p);
    assert s.plugins[p].role == {};
    ThreeRolesGiven(s, p);
    hide AddRole, HasType, NoRoles, ThreeRoles, SlotsSound;
    SlotRoleGiven(ThreeRoles(s), s.manager, FaultManager, p);
  }

  lemma SlotsWithinTypes(s: Settings, p: string)
    requires SlotsSound(s) && p in s.plugins
    ensures SlotRoles(s, p) <= s.plugins[p].plType
  {
  }

  /** From an empty start, over any file and any libraries, and also when the file ends in an error. */
  lemma StartUpRoles(lines: seq<string>, load: (string, seq<string>) -> Library, p: string)
    ensures var s := ReadConfig(UNCONFIGURED, lines, load).0;
            && SlotsSound(s) && MainRoles(s).Keys == s.plugins.Keys
            && (p in s.plugins ==>
                  MainRoles(s)[p] == Entry(s.plugins[p].plType, SlotRoles(s, p))
                  && SlotRoles(s, p) <= s.plugins[p].plType)
  {
    SlotsAlwaysSound(UNCONFIGURED, lines, load);
    hide ReadConfig, SlotsSound, NoRoles, MainRoles, SlotRoles;
    var s := ReadConfig(UNCONFIGURED, lines, load).0;
    if q :| q in s.plugins {
      MainRolesGiven(s, q);
      if p in s.plugins {
        MainRolesGiven(s, p);
      }
    } else {
      NoPlugins(s);
    }
  }

  lemma NoPlugins(s: Settings)
    requires s.plugins.Keys == {}
    ensures MainRoles(s).Keys == {}
  {
  }

  const TRANSCRIBE := "transcribe"

  /** A post-init hook. Only the one of transcribe touches roles: it passes its own on. */
  function Hook(r: Registry, name: string, nested: string): Registry {
    if name == TRANSCRIBE && nested in r then
      SetRole(AddRole(r, Some(nested), {FaultManager}), Some(TRANSCRIBE), {OtherRole})
    else r
  }

  function Hooks(r: Registry, order: seq<string>, nested: string): Registry
    decreases |order|
  {
    if order == [] then r else Hooks(Hook(r, order[0], nested), order[1..], nested)
  }

  /** The plugins that hold the fault-manager role. */
  function Managers(r: Registry): set<string> {
    set p | p in r && FaultManager in r[p].role
  }

  predicate CanTranscribe(r: Registry) {
    TRANSCRIBE in r && r[TRANSCRIBE].plType == {FaultManager, OtherRole}
  }

  lemma HookResult(r: Registry, nested: string)
    requires CanTranscribe(r) && nested in r
    ensures var t := Hook(r, TRANSCRIBE, nested);
            && CanTranscribe(t) && nested in t && t[nested].plType == r[nested].plType
            && Managers(t)
               == (if HasType(r, nested, FaultManager) then Managers(r) + {nested} else Managers(r)) - {TRANSCRIBE}
  {
  }

  /** What becomes of a plugin's role when transcribe's hook has run. */
  function RoleBehindHook(r: Registry, nested: string, p: string): Roles
    requires p in r
  {
    if p == TRANSCRIBE then {OtherRole}
    else if p == nested && FaultManager in r[p].plType then r[p].role + {FaultManager}
    else r[p].role
  }

  lemma HookExactly(r: Registry, nested: string, p: string)
    requires CanTranscribe(r) && nested in r && p in r
    ensures var t := Hook(r, TRANSCRIBE, nested);
            CanTranscribe(t) && nested in t && p in t && t[p] == Entry(r[p].plType, RoleBehindHook(r, nested, p))
  {
  }

  /** Whatever the order of the hooks: transcribe ends in the other role, the nested plugin as manager, if it can be. */
  lemma {:induction false} HooksExactly(r: Registry, order: seq<string>, nested: string, p: string)
    requires CanTranscribe(r) && nested in r && p in r
    ensures var t := Hooks(r, order, nested);
            var role := if TRANSCRIBE in order then RoleBehindHook(r, nested, p) else r[p].role;
            p in t && t[p] == Entry(r[p].plType, role)
    decreases |order|
  {
    hide CanTranscribe;
    if order != [] {
      HookExactly(r, nested, p);
      HooksExactly(Hook(r, order[0], nested), order[1..], nested, p);
      assert order == [order[0]] + order[1..];
    }
  }

  /** Running the hooks in any order, once transcribe's is among them. */
  lemma {:induction false} HooksResult(r: Registry, order: seq<string>, nested: string)
    requires CanTranscribe(r) && nested in r && (TRANSCRIBE in order || TRANSCRIBE !in Managers(r))
    requires TRANSCRIBE in order || !HasType(r, nested, FaultManager) || nested in Managers(r) || nested == TRANSCRIBE
    ensures Managers(Hooks(r, order, nested))
         == (if HasType(r, nested, FaultManager) then Managers(r) + {nested} else Managers(r)) - {TRANSCRIBE}
    decreases |order|
  {
    if order != [] {
      HookResult(r, nested);
      HooksResult(Hook(r, order[0], nested), order[1..], nested);
    }
  }

  /**
   With transcribe as the configured fault manager, and after all post-init hooks in whatever
   order they run, the nested plugin alone holds the fault-manager role -- if and only if it is
   another plugin than transcribe and able to be a fault manager.
   */
  lemma NestedIsManager(s: Settings, order: seq<string>, nested: string)
    requires SlotsSound(s) && NoRoles(s.plugins) && CanTranscribe(s.plugins)
    requires s.manager == Some(TRANSCRIBE) && TRANSCRIBE in order && nested in s.plugins
    ensures Managers(Hooks(MainRoles(s), order, nested)) == {nested}
       <==> nested != TRANSCRIBE && HasType(s.plugins, nested, FaultManager)
  {
    var r := MainRoles(s);
    forall p | p in s.plugins
      ensures r.Keys == s.plugins.Keys && r[p] == Entry(s.plugins[p].plType, SlotRoles(s, p))
    {
      MainRolesGiven(s, p);
    }
    hide MainRoles, Hooks;
    assert Managers(r) == {TRANSCRIBE};
    HooksResult(r, order, nested);
  }

  lemma OneChange(r: Registry, c: Change)
    requires RolesFit(r)
    ensures RolesFit(AfterChange(r, c))
  {
    RolesStayFit(r, [c]);
    assert AfterChanges(AfterChange(r, c), [c][1..]) == AfterChange(r, c);
  }

  lemma MainRolesFit(s: Settings)
    requires RolesFit(s.plugins)
    ensures RolesFit(MainRoles(s))
  {
    hide AddRole, RolesFit;
    var actor := AddRole(s.plugins, s.actor, {ComActor});
    var notify := AddRole(actor, s.notify, {ComExtern});
    OneChange(s.plugins, RoleAdded(s.actor, {ComActor}));
    OneChange(actor, RoleAdded(s.notify, {ComExtern}));
    OneChange(notify, RoleAdded(s.logger, {LoggerRole}));
    OneChange(AddRole(notify, s.logger, {LoggerRole}), RoleAdded(s.manager, {FaultManager}));
  }

  lemma {:induction false} HooksFit(r: Registry, order: seq<string>, nested: string)
    requires RolesFit(r)
    ensures RolesFit(Hooks(r, order, nested))
    decreases |order|
  {
    hide AddRole, SetRole, RolesFit;
    if order != [] {
      OneChange(r, RoleAdded(Some(nested), {FaultManager}));
      OneChange(AddRole(r, Some(nested), {FaultManager}), RoleSet(Some(TRANSCRIBE), {OtherRole}));
      HooksFit(Hook(r, order[0], nested), order[1..], nested);
    }
  }

  /** Also after the hooks, whatever the file, the libraries and the order of the hooks. */
  lemma StartUpRolesFit(lines: seq<string>, load: (string, seq<string>) -> Library, order: seq<string>, nested: string)
    ensures RolesFit(Hooks(MainRoles(ReadConfig(UNCONFIGURED, lines, load).0), order, nested))
  {
    SlotsAlwaysSound(UNCONFIGURED, lines, load);
    hide ReadConfig, MainRoles, Hooks;
    var s := ReadConfig(UNCONFIGURED, lines, load).0;
    MainRolesFit(s);
    HooksFit(MainRoles(s), order, nested);
  }
}
