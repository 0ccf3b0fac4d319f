/** The configuration helpers of utils.py: where inkbot keeps its data, writing a
    configuration without its secrets, and completing a configuration from a
    template by asking the user.  A configuration is a map from section names to
    maps from option names to values. */
module Utils {
  import opened Common

  type Section = map<string, string>
  type Cfg = map<string, Section>

  /** `SECRETS_KEWORDS` (utils.py:8). */
  const SECRET_KEYWORDS: seq<string> := ["pass", "secret", "key"]

  /** `any([(kw in option.lower()) for kw in SECRETS_KEWORDS])`. */
  predicate IsSecret(option: string) {
    exists kw :: kw in SECRET_KEYWORDS && IsSubstring(kw, Lower(option))
  }

  /** `"test" in section`: a section only the tests use. */
  predicate IsTest(section: string) {
    IsSubstring("test", section)
  }

  /** An option is a secret as soon as one keyword occurs in its lower-cased name. */
  lemma SecretBy(option: string, kw: nat, i: nat)
    requires kw < |SECRET_KEYWORDS| && OccursAt(SECRET_KEYWORDS[kw], Lower(option), i)
    ensures IsSecret(option)
  {
    assert SECRET_KEYWORDS[kw] in SECRET_KEYWORDS;
  }

  /** `password` contains `pass`. */
  lemma PasswordIsSecret()
    ensures IsSecret("password")
  {
    forall i | 0 <= i < 4 ensures Lower("password")[i] == LowerChar("password"[i]) { LowerAt("password", i); }
    assert Lower("password")[0..4] == "pass";
    SecretBy("password", 0, 0);
  }

  /** `client_secret` contains `secret`. */
  lemma ClientSecretIsSecret()
    ensures IsSecret("client_secret")
  {
    forall i | 7 <= i < 13 ensures Lower("client_secret")[i] == LowerChar("client_secret"[i]) { LowerAt("client_secret", i); }
    assert Lower("client_secret")[7..13] == "secret";
    SecretBy("client_secret", 1, 7);
  }

  /** `airtable_api_key` contains `key`. */
  lemma ApiKeyIsSecret()
    ensures IsSecret("airtable_api_key")
  {
    forall i | 13 <= i < 16 ensures Lower("airtable_api_key")[i] == LowerChar("airtable_api_key"[i]) { LowerAt("airtable_api_key", i); }
    assert Lower("airtable_api_key")[13..16] == "key";
    SecretBy("airtable_api_key", 2, 13);
  }

  /** The options of the bot's template that count as secrets: the password,
      the client secret and the Airtable key. */
  lemma TemplateSecrets()
    ensures IsSecret("password") && IsSecret("client_secret") && IsSecret("airtable_api_key")
  {
    PasswordIsSecret();
    ClientSecretIsSecret();
    ApiKeyIsSecret();
  }

  /** The keyword test ignores the case of the option name: a name is a secret
      exactly when its lower-cased form is. */
  lemma SecretIgnoresCase(option: string)
    ensures IsSecret(option) <==> IsSecret(Lower(option))
  {
    LowerIdempotent(option);
  }

  // ---------------------------------------------------------------------------
  // get_inkbot_dir (utils.py:11-22)

  datatype EnvError = MissingVariable(name: string)

  /** The inkbot directory as path components, given `sys.platform`, the
      environment and the expanded home directory. */
  function InkbotDir(platform: string, env: map<string, string>, home: string): Result<seq<string>, EnvError> {
    if IsSubstring("win", platform) then
      if "APPDATA" in env then Ok([env["APPDATA"], "inkbot"]) else Err(MissingVariable("APPDATA"))
    else Ok([home, ".local", "share", "inkbot"])
  }

  /** The directory always ends in an `inkbot` component; its base is `%APPDATA%`
      exactly when "win" occurs in the platform name, and `~/.local/share`
      otherwise.  With the home directory given, only the first case can fail,
      when `APPDATA` is unset. */
  lemma InkbotDirShape(platform: string, env: map<string, string>, home: string)
    ensures var r := InkbotDir(platform, env, home);
      && (r.Ok? ==> |r.value| >= 2 && r.value[|r.value| - 1] == "inkbot")
      && (r.Ok? ==> r.value[..|r.value| - 1] == if IsSubstring("win", platform) then [env["APPDATA"]] else [home, ".local", "share"])
      && (r.Err? <==> IsSubstring("win", platform) && "APPDATA" !in env)
  {
  }

  /** As written, macOS (`sys.platform == "darwin"`) takes the Windows branch:
      it reads `%APPDATA%`, and fails when that is unset, as it normally is there. */
  lemma DarwinTakesWindowsBranch(env: map<string, string>, home: string)
    ensures InkbotDir("darwin", env, home) == if "APPDATA" in env then Ok([env["APPDATA"], "inkbot"]) else Err(MissingVariable("APPDATA"))
    ensures "APPDATA" !in env ==> InkbotDir("darwin", env, home).Err?
  {
    assert OccursAt("win", "darwin", 3);
  }

  /** `sys.platform.startswith("win")`: the test the comments at utils.py:15 and
      utils.py:19 describe ("Windows" and "not Windows"). */
  predicate IsWindows(platform: string) {
    |platform| >= 3 && platform[..3] == "win"
  }

  /** get_inkbot_dir with the Windows test the source evidently means. */
  function InkbotDirIntended(platform: string, env: map<string, string>, home: string): Result<seq<string>, EnvError> {
    if IsWindows(platform) then
      if "APPDATA" in env then Ok([env["APPDATA"], "inkbot"]) else Err(MissingVariable("APPDATA"))
    else Ok([home, ".local", "share", "inkbot"])
  }

  /** The intended directory is under `~/.local/share` on macOS and Linux and
      under `%APPDATA%` on Windows, and it differs from the written one only on
      platforms whose name contains "win" other than at the start. */
  lemma InkbotDirIntendedPlatforms(env: map<string, string>, home: string, platform: string)
    ensures InkbotDirIntended("darwin", env, home) == Ok([home, ".local", "share", "inkbot"])
    ensures InkbotDirIntended("linux", env, home) == Ok([home, ".local", "share", "inkbot"])
    ensures "APPDATA" in env ==> InkbotDirIntended("win32", env, home) == Ok([env["APPDATA"], "inkbot"])
    ensures IsWindows(platform) || !IsSubstring("win", platform) ==>
      InkbotDirIntended(platform, env, home) == InkbotDir(platform, env, home)
  {
    assert "darwin"[0] != 'w' && "linux"[0] != 'w';
    if IsWindows(platform) {
      assert OccursAt("win", platform, 0);
    }
  }

  // ---------------------------------------------------------------------------
  // write_config (utils.py:52-83)

  /** A `configparser.ConfigParser`, which write_config and populate_config change in place. */
  class Config {
    var sections: Cfg

    constructor (sections: Cfg)
      ensures this.sections == sections
    {
      this.sections := sections;
    }
  }

  function StripSection(sec: Section): Section {
    map o | o in sec && !IsSecret(o) :: sec[o]
  }

  /** The configuration without any secret option. */
  function StripSecrets(cfg: Cfg): Cfg {
    map s | s in cfg :: StripSection(cfg[s])
  }

  /** Keeps every section and every non-secret option with its value, and drops
      exactly the secret options. */
  lemma StripSecretsSpec(cfg: Cfg)
    ensures StripSecrets(cfg).Keys == cfg.Keys
    ensures forall s, o :: s in cfg ==>
      (o in StripSecrets(cfg)[s] <==> o in cfg[s] && !IsSecret(o))
    ensures forall s, o :: s in cfg && o in cfg[s] && !IsSecret(o) ==> StripSecrets(cfg)[s][o] == cfg[s][o]
  {
  }

  /** Stripping twice strips nothing more, and a configuration is left as it is
      exactly when it holds no secret option. */
  lemma StripSecretsIdempotent(cfg: Cfg)
    ensures StripSecrets(StripSecrets(cfg)) == StripSecrets(cfg)
    ensures StripSecrets(cfg) == cfg <==> forall s, o :: s in cfg && o in cfg[s] ==> !IsSecret(o)
  {
    var once := StripSecrets(cfg);
    forall s | s in once ensures StripSection(once[s]) == once[s] {
      assert StripSection(once[s]).Keys == once[s].Keys;
    }
    if forall s, o :: s in cfg && o in cfg[s] ==> !IsSecret(o) {
      forall s | s in cfg ensures StripSection(cfg[s]) == cfg[s] {
        assert StripSection(cfg[s]).Keys == cfg[s].Keys;
      }
    }
    if once == cfg {
      forall s, o | s in cfg && o in cfg[s] ensures !IsSecret(o) {
        assert o in once[s];
      }
    }
  }

  /** The options of `sec` that are not secret, together with the pending ones. */
  function PartlyStripped(sec: Section, pending: set<string>): Section {
    map o | o in sec && (o in pending || !IsSecret(o)) :: sec[o]
  }

  lemma PartlyStrippedStep(sec: Section, pending: set<string>, option: string)
    requires option in pending
    ensures PartlyStripped(sec, pending - {option}) ==
      if IsSecret(option) then PartlyStripped(sec, pending) - {option} else PartlyStripped(sec, pending)
  {
  }

  /** The inner loop of write_config (utils.py:80-82): removes the secret
      options of one section in place. */
  method RemoveSecrets(config: Config, section: string)
    requires section in config.sections
    modifies config
    ensures config.sections == old(config.sections)[section := StripSection(old(config.sections)[section])]
  {
    ghost var orig := config.sections;
    var options := config.sections[section].Keys;
    assert PartlyStripped(orig[section], options) == orig[section];
    while options != {}
      invariant options <= orig[section].Keys
      invariant config.sections == orig[section := PartlyStripped(orig[section], options)]
      decreases |options|
    {
      var option :| option in options;
      PartlyStrippedStep(orig[section], options, option);
      if IsSecret(option) {
        config.sections := config.sections[section := config.sections[section] - {option}];
      }
      options := options - {option};
    }
    assert PartlyStripped(orig[section], {}) == StripSection(orig[section]);
  }

  datatype WriteError = FileExists

  /** `write_config`: refuses to replace an existing file unless `overwrite`;
      otherwise, when `secrets` is false, removes the secret options from
      `config` itself, and writes `config`.  The result is what is written. */
  method WriteConfig(config: Config, fileExists: bool, secrets: bool, overwrite: bool) returns (written: Result<Cfg, WriteError>)
    modifies config
    ensures fileExists && !overwrite ==> written == Err(FileExists) && config.sections == old(config.sections)
    ensures !(fileExists && !overwrite) ==>
      && config.sections == (if secrets then old(config.sections) else StripSecrets(old(config.sections)))
      && written == Ok(config.sections)
  {
    var pthExists := fileExists;
    if pthExists && !overwrite {
      return Err(FileExists);
    }
    if !secrets {
      ghost var orig := config.sections;
      var todo := config.sections.Keys;
      while todo != {}
        invariant todo <= orig.Keys && config.sections.Keys == orig.Keys
        invariant forall s :: s in orig ==> config.sections[s] == if s in todo then orig[s] else StripSection(orig[s])
        decreases |todo|
      {
        var section :| section in todo;
        RemoveSecrets(config, section);
        todo := todo - {section};
      }
      assert config.sections == StripSecrets(orig);
    }
    return Ok(config.sections);
  }

  // ---------------------------------------------------------------------------
  // populate_config (utils.py:86-129)

  /** One section of the template file, with its options in file order. */
  datatype TemplateSection = TemplateSection(name: string, options: seq<string>)

  /** One question to the user: `getpass` when `hidden`, `input` otherwise. */
  datatype Prompt = Prompt(section: string, option: string, hidden: bool)

  /** `f"Please enter the {option} for {section}\n> "`. */
  function PromptText(section: string, option: string): string {
    "Please enter the " + option + " for " + section + "\n> "
  }

  /** The user, as a function from the text shown and whether the answer is
      hidden (`getpass`) or echoed (`input`) to the answer typed. */
  type Asker = (string, bool) -> string

  /** The user's answer to question `p`. */
  function Answer(ask: Asker, p: Prompt): string {
    ask(PromptText(p.section, p.option), p.hidden)
  }

  /** The configuration afterwards and the questions asked, in order. */
  datatype Filled = Filled(cfg: Cfg, asked: seq<Prompt>)

  /** `config[section].get(option)`. */
  function Value(cfg: Cfg, s: string, o: string): Option<string> {
    if s in cfg && o in cfg[s] then Some(cfg[s][o]) else None
  }

  /** `opt_val` is truthy: present and non-empty. */
  predicate IsSet(v: Option<string>) {
    v.Some? && v.value != ""
  }

  /** The value an option of a non-test template section ends up with: its own
      when set, the user's answer otherwise. */
  function Target(v: Option<string>, s: string, o: string, ask: Asker): string {
    if IsSet(v) then v.value else Answer(ask, Prompt(s, o, IsSecret(o)))
  }

  /** The inner loop (utils.py:119-127) over the options of section `s`. */
  function FillOptions(cfg: Cfg, s: string, opts: seq<string>, ask: Asker): (r: Filled)
    requires s in cfg
    ensures s in r.cfg && r.cfg.Keys == cfg.Keys
  {
    if opts == [] then Filled(cfg, [])
    else
      var prev := FillOptions(cfg, s, opts[..|opts| - 1], ask);
      var o := opts[|opts| - 1];
      if IsSet(Value(prev.cfg, s, o)) then prev
      else
        var p := Prompt(s, o, IsSecret(o));
        Filled(prev.cfg[s := prev.cfg[s][o := Answer(ask, p)]], prev.asked + [p])
  }

  /** `config.add_section(section)` unless it is there already. */
  function WithSection(cfg: Cfg, s: string): (r: Cfg)
    ensures s in r && forall x, o :: Value(r, x, o) == Value(cfg, x, o)
  {
    if s in cfg then cfg else cfg[s := map[]]
  }

  /** The outer loop (utils.py:113-127) over the template's sections. */
  function Populate(cfg: Cfg, template: seq<TemplateSection>, ask: Asker): Filled {
    if template == [] then Filled(cfg, [])
    else
      var prev := Populate(cfg, template[..|template| - 1], ask);
      var t := template[|template| - 1];
      if IsTest(t.name) then prev
      else
        var r := FillOptions(WithSection(prev.cfg, t.name), t.name, t.options, ask);
        Filled(r.cfg, prev.asked + r.asked)
  }

  /** `section` is a non-test section of the template. */
  predicate InTemplate(template: seq<TemplateSection>, section: string) {
    exists k :: 0 <= k < |template| && template[k].name == section && !IsTest(section)
  }

  /** `option` is listed under a non-test section `section` of the template. */
  predicate InTemplateOption(template: seq<TemplateSection>, section: string, option: string) {
    exists k :: 0 <= k < |template| && template[k].name == section && !IsTest(section) && option in template[k].options
  }

  lemma TargetIdempotent(v: Option<string>, s: string, o: string, ask: Asker)
    ensures Target(Some(Target(v, s, o, ask)), s, o, ask) == Target(v, s, o, ask)
  {
  }

  /** `config[s][o] = v` changes the value of that one option. */
  lemma ValueUpdate(cfg: Cfg, s: string, o: string, v: string)
    requires s in cfg
    ensures forall x, p :: Value(cfg[s := cfg[s][o := v]], x, p) == if x == s && p == o then Some(v) else Value(cfg, x, p)
  {
    var c := cfg[s := cfg[s][o := v]];
    forall x, p
      ensures Value(c, x, p) == if x == s && p == o then Some(v) else Value(cfg, x, p)
    {
      if x == s {
        assert c[x] == cfg[s][o := v];
      } else {
        assert x in c <==> x in cfg;
      }
    }
  }

  /** The inner loop: options of `opts` take their target value, nothing else changes. */
  lemma {:induction false} FillOptionsValues(cfg: Cfg, s: string, opts: seq<string>, ask: Asker)
    requires s in cfg
    ensures var r := FillOptions(cfg, s, opts, ask).cfg;
      && (forall x, o :: x != s || o !in opts ==> Value(r, x, o) == Value(cfg, x, o))
      && (forall o :: o in opts ==> Value(r, s, o) == Some(Target(Value(cfg, s, o), s, o, ask)))
  {
    if opts != [] {
      var init := opts[..|opts| - 1];
      var o := opts[|opts| - 1];
      FillOptionsValues(cfg, s, init, ask);
      assert forall x :: x in opts <==> x in init || x == o;
      TargetIdempotent(Value(cfg, s, o), s, o, ask);
      var prev := FillOptions(cfg, s, init, ask);
      if IsSet(Value(prev.cfg, s, o)) {
        assert FillOptions(cfg, s, opts, ask) == prev;
      } else {
        var v := Answer(ask, Prompt(s, o, IsSecret(o)));
        assert FillOptions(cfg, s, opts, ask).cfg == prev.cfg[s := prev.cfg[s][o := v]];
        ValueUpdate(prev.cfg, s, o, v);
      }
    }
  }

  /** The inner loop's questions: each is about an option of `opts` that was
      unset and is hidden exactly when the option is a secret, every such option
      is asked about, and there are no more questions than options. */
  lemma {:induction false} FillOptionsPrompts(cfg: Cfg, s: string, opts: seq<string>, ask: Asker)
    requires s in cfg
    ensures var r := FillOptions(cfg, s, opts, ask);
      && (forall p :: p in r.asked ==>
            p.section == s && p.option in opts && p.hidden == IsSecret(p.option) && !IsSet(Value(cfg, s, p.option)))
      && (forall o :: o in opts && !IsSet(Value(cfg, s, o)) ==> Prompt(s, o, IsSecret(o)) in r.asked)
      && |r.asked| <= |opts|
  {
    if opts != [] {
      var init := opts[..|opts| - 1];
      var o := opts[|opts| - 1];
      FillOptionsPrompts(cfg, s, init, ask);
      FillOptionsValues(cfg, s, init, ask);
      assert forall x :: x in opts <==> x in init || x == o;
    }
  }

  /** No option is listed twice, as configparser guarantees for a section read from a file. */
  predicate Distinct(opts: seq<string>) {
    forall i, j :: 0 <= i < j < |opts| ==> opts[i] != opts[j]
  }

  /** The questions for the options of `opts` that are missing or empty in `cfg`,
      one per option and in option order. */
  function UnsetPrompts(cfg: Cfg, s: string, opts: seq<string>): (ps: seq<Prompt>)
    ensures |ps| <= |opts|
  {
    if opts == [] then []
    else
      var o := opts[|opts| - 1];
      UnsetPrompts(cfg, s, opts[..|opts| - 1]) + (if IsSet(Value(cfg, s, o)) then [] else [Prompt(s, o, IsSecret(o))])
  }

  /** With distinct options, the inner loop asks exactly once for each option
      that was missing or empty, in the order the options are listed. */
  lemma {:induction false} FillOptionsAskedInOrder(cfg: Cfg, s: string, opts: seq<string>, ask: Asker)
    requires s in cfg && Distinct(opts)
    ensures FillOptions(cfg, s, opts, ask).asked == UnsetPrompts(cfg, s, opts)
  {
    if opts != [] {
      var init := opts[..|opts| - 1];
      var o := opts[|opts| - 1];
      assert forall i :: 0 <= i < |init| ==> init[i] == opts[i];
      assert o !in init;
      FillOptionsAskedInOrder(cfg, s, init, ask);
      FillOptionsValues(cfg, s, init, ask);
      assert Value(FillOptions(cfg, s, init, ask).cfg, s, o) == Value(cfg, s, o);
    }
  }

  /** The non-test template sections of `template` are those of its prefix and,
      unless it is a test section, its last one. */
  lemma InTemplateSnoc(template: seq<TemplateSection>)
    requires template != []
    ensures var init := template[..|template| - 1]; var t := template[|template| - 1];
      && (forall s :: InTemplate(template, s) <==> InTemplate(init, s) || (s == t.name && !IsTest(s)))
      && (forall s, o :: InTemplateOption(template, s, o) <==>
            InTemplateOption(init, s, o) || (s == t.name && !IsTest(s) && o in t.options))
  {
    var n := |template| - 1;
    var init := template[..n];
    forall s | InTemplate(template, s) ensures InTemplate(init, s) || s == template[n].name {
      var k :| 0 <= k < |template| && template[k].name == s && !IsTest(s);
      if k < n {
        assert init[k] == template[k];
      }
    }
    forall s, o | InTemplateOption(template, s, o) ensures InTemplateOption(init, s, o) || (s == template[n].name && o in template[n].options) {
      var k :| 0 <= k < |template| && template[k].name == s && !IsTest(s) && o in template[k].options;
      if k < n {
        assert init[k] == template[k];
      }
    }
    forall s | InTemplate(init, s) ensures InTemplate(template, s) {
      var k :| 0 <= k < n && init[k].name == s && !IsTest(s);
      assert template[k] == init[k];
    }
    forall s, o | InTemplateOption(init, s, o) ensures InTemplateOption(template, s, o) {
      var k :| 0 <= k < n && init[k].name == s && !IsTest(s) && o in init[k].options;
      assert template[k] == init[k];
    }
  }

  /** After populate_config every non-test template section exists, and no other section is added. */
  lemma {:induction false} PopulateSections(cfg: Cfg, template: seq<TemplateSection>, ask: Asker)
    ensures forall s :: s in Populate(cfg, template, ask).cfg <==> s in cfg || InTemplate(template, s)
  {
    if template != [] {
      PopulateSections(cfg, template[..|template| - 1], ask);
      InTemplateSnoc(template);
    }
  }

  /** Every option of a non-test template section keeps a value it had when
      that value is non-empty, and otherwise holds the user's answer. */
  ghost predicate TemplateFilled(cfg: Cfg, template: seq<TemplateSection>, ask: Asker, r: Cfg) {
    forall s, o :: InTemplateOption(template, s, o) ==> Value(r, s, o) == Some(Target(Value(cfg, s, o), s, o, ask))
  }

  /** Every option not listed under a non-test template section is as it was. */
  ghost predicate Untouched(cfg: Cfg, template: seq<TemplateSection>, r: Cfg) {
    forall s, o :: !InTemplateOption(template, s, o) ==> Value(r, s, o) == Value(cfg, s, o)
  }

  /** The values after populate_config: template options filled, all else untouched. */
  lemma {:induction false} PopulateValues(cfg: Cfg, template: seq<TemplateSection>, ask: Asker)
    ensures TemplateFilled(cfg, template, ask, Populate(cfg, template, ask).cfg)
    ensures Untouched(cfg, template, Populate(cfg, template, ask).cfg)
  {
    if template != [] {
      var init := template[..|template| - 1];
      var t := template[|template| - 1];
      var prev := Populate(cfg, init, ask).cfg;
      PopulateValues(cfg, init, ask);
      InTemplateSnoc(template);
      if !IsTest(t.name) {
        var start := WithSection(prev, t.name);
        var r := FillOptions(start, t.name, t.options, ask).cfg;
        FillOptionsValues(start, t.name, t.options, ask);
        forall s, o | InTemplateOption(template, s, o)
          ensures Value(r, s, o) == Some(Target(Value(cfg, s, o), s, o, ask))
        {
          if InTemplateOption(init, s, o) {
            TargetIdempotent(Value(cfg, s, o), s, o, ask);
          }
        }
      }
    }
  }

  /** The questions populate_config asks: each is about an unset option of a
      non-test template section, hidden exactly when the option is a secret. */
  lemma {:induction false} PopulatePromptsSound(cfg: Cfg, template: seq<TemplateSection>, ask: Asker)
    ensures forall p :: p in Populate(cfg, template, ask).asked ==>
      && p.hidden == IsSecret(p.option) && !IsTest(p.section)
      && InTemplateOption(template, p.section, p.option) && !IsSet(Value(cfg, p.section, p.option))
  {
    if template != [] {
      var init := template[..|template| - 1];
      var t := template[|template| - 1];
      var prev := Populate(cfg, init, ask);
      PopulatePromptsSound(cfg, init, ask);
      InTemplateSnoc(template);
      if !IsTest(t.name) {
        var start := WithSection(prev.cfg, t.name);
        PopulateValues(cfg, init, ask);
        FillOptionsPrompts(start, t.name, t.options, ask);
        forall p | p in FillOptions(start, t.name, t.options, ask).asked
          ensures !IsSet(Value(cfg, p.section, p.option))
        {
          if InTemplateOption(init, p.section, p.option) {
            assert Value(start, p.section, p.option) == Some(Target(Value(cfg, p.section, p.option), p.section, p.option, ask));
          }
        }
      }
    }
  }

  /** Every unset option of a non-test template section is asked about. */
  lemma {:induction false} PopulatePromptsComplete(cfg: Cfg, template: seq<TemplateSection>, ask: Asker)
    ensures forall s, o :: InTemplateOption(template, s, o) && !IsSet(Value(cfg, s, o)) ==>
      Prompt(s, o, IsSecret(o)) in Populate(cfg, template, ask).asked
  {
    if template != [] {
      var init := template[..|template| - 1];
      var t := template[|template| - 1];
      var prev := Populate(cfg, init, ask);
      PopulatePromptsComplete(cfg, init, ask);
      InTemplateSnoc(template);
      if !IsTest(t.name) {
        var start := WithSection(prev.cfg, t.name);
        PopulateValues(cfg, init, ask);
        FillOptionsPrompts(start, t.name, t.options, ask);
        forall s, o | InTemplateOption(template, s, o) && !IsSet(Value(cfg, s, o)) && !InTemplateOption(init, s, o)
          ensures Prompt(s, o, IsSecret(o)) in FillOptions(start, t.name, t.options, ask).asked
        {
          assert Value(start, s, o) == Value(cfg, s, o);
        }
      }
    }
  }

  /** The inner loop of populate_config (utils.py:119-127) for one section. */
  method FillSection(config: Config, section: string, options: seq<string>, ask: Asker) returns (asked: seq<Prompt>)
    requires section in config.sections
    modifies config
    ensures FillOptions(old(config.sections), section, options, ask) == Filled(config.sections, asked)
  {
    ghost var start := config.sections;
    asked := [];
    for j := 0 to |options|
      invariant FillOptions(start, section, options[..j], ask) == Filled(config.sections, asked)
    {
      assert options[..j + 1][..j] == options[..j];
      var option := options[j];
      var optVal := if option in config.sections[section] then Some(config.sections[section][option]) else None;
      if optVal.None? || optVal.value == "" {
        var promptStr := PromptText(section, option);
        var value: string;
        if IsSecret(option) {
          value := ask(promptStr, true);    // getpass(prompt=prompt_str)
          asked := asked + [Prompt(section, option, true)];
        } else {
          value := ask(promptStr, false);   // input(prompt_str)
          asked := asked + [Prompt(section, option, false)];
        }
        config.sections := config.sections[section := config.sections[section][option := value]];
      }
    }
    assert options[..|options|] == options;
  }

  /** `populate_config`: completes `config` in place from the template, asking
      for every missing or empty option of a non-test section.  The result is
      the questions asked, in order. */
  method PopulateConfig(config: Config, template: seq<TemplateSection>, ask: Asker) returns (asked: seq<Prompt>)
    modifies config
    ensures config.sections == Populate(old(config.sections), template, ask).cfg
    ensures asked == Populate(old(config.sections), template, ask).asked
  {
    ghost var orig := config.sections;
    asked := [];
    for i := 0 to |template|
      invariant Populate(orig, template[..i], ask) == Filled(config.sections, asked)
    {
      assert template[..i + 1][..i] == template[..i];
      var section := template[i].name;
      if IsTest(section) {
        // Test sections are not used in operational runs.
        continue;
      }
      if section !in config.sections {
        config.sections := config.sections[section := map[]];
      }
      var more := FillSection(config, section, template[i].options, ask);
      asked := asked + more;
    }
    assert template[..|template|] == template;
  }
}
