/**
 `RepoConfig`: which style guides a commit enables and which settings each
 one gets, read from the committed `.hound.yml` and the per-guide files it
 points to. Every lookup is lenient: an absent, blank or unparsable file
 reads as the empty hash. `Validate` is the strict pass that reports each
 guide whose configuration file does not parse (the intended behaviour; the
 code as written is modelled in RepoConfigAsWritten).
 */
module RepoConfigs {
  import opened Values
  import opened Formats

  /** `STYLE_GUIDES`, a closed set. */
  datatype Guide = Ruby | CoffeeScript | JavaScript

  /** `STYLE_GUIDES` in declaration order. */
  const StyleGuides: seq<Guide> := [Ruby, CoffeeScript, JavaScript]

  /** `HOUND_CONFIG_FILE`. */
  const HoundConfigFile: string := ".hound.yml"

  /** The guide's key in `STYLE_GUIDES` and in `.hound.yml`. */
  function SnakeName(g: Guide): string {
    match g
    case Ruby => "ruby"
    case CoffeeScript => "coffee_script"
    case JavaScript => "java_script"
  }

  /** ActiveSupport's `camelize` on the guide's name. */
  function CamelName(g: Guide): string {
    match g
    case Ruby => "Ruby"
    case CoffeeScript => "CoffeeScript"
    case JavaScript => "JavaScript"
  }

  /**
   The commit the configuration is read from (path to file content; a
   missing path is an absent file) and the YAML/JSON loader, which returns
   None when it raises the syntax error `parse_yaml`/`parse_json` rescue.
   */
  datatype RepoConfig = RepoConfig(files: map<string, string>, parse: (Format, string) -> Option<Value>)

  /** `commit.file_content(path)`. */
  function FileContent(rc: RepoConfig, path: string): Option<string> {
    if path in rc.files then Some(rc.files[path]) else None
  }

  /** The ASCII characters of `[[:space:]]`: space, tab, LF, VT, FF, CR. */
  predicate IsSpace(c: char) {
    c == ' ' || 9 <= c as int <= 13
  }

  /** ActiveSupport's `present?` on file content: not nil and not only whitespace. */
  predicate Present(content: Option<string>): (r: bool)
    ensures r ==> content.Some? && |content.value| > 0
    ensures content.Some? && |content.value| > 0 && !IsSpace(content.value[0]) ==> r
  {
    content.Some? && exists i :: 0 <= i < |content.value| && !IsSpace(content.value[i])
  }

  /** `parse_yaml` / `parse_json` with their default callback `{}`. */
  function ParseOrEmpty(rc: RepoConfig, f: Format, content: string): Value {
    match rc.parse(f, content)
    case Some(v) => v
    case None => EmptyHash
  }

  /**
   `load_file`: absent or blank content is `{}`; otherwise the parser the
   extension names, whose syntax errors also read as `{}`. An extension
   outside `FILE_TYPES` sends the undefined `parse_` and raises.
   */
  function LoadFile(rc: RepoConfig, path: string): (r: Result<Value>)
    ensures !Present(FileContent(rc, path)) ==> r == Ok(EmptyHash)
    ensures r.Raise? <==> Present(FileContent(rc, path)) && FormatOf(path).None?
    ensures r.Raise? ==> r.fault == NoMethodError
    ensures Present(FileContent(rc, path)) && FormatOf(path).Some? ==>
      var parsed := rc.parse(FormatOf(path).value, FileContent(rc, path).value);
      && (parsed.None? ==> r == Ok(EmptyHash))
      && (parsed.Some? ==> r == Ok(parsed.value))
  {
    var content := FileContent(rc, path);
    var format := FormatOf(path);
    if !Present(content) then Ok(EmptyHash)
    else if format.None? then Raise(NoMethodError)
    else Ok(ParseOrEmpty(rc, format.value, content.value))
  }

  /** A `.yml` path is loaded with the YAML parser and never raises. */
  lemma LoadYamlFile(rc: RepoConfig, path: string)
    requires FormatOf(path) == Some(Yaml)
    ensures LoadFile(rc, path) == Ok(
      if Present(FileContent(rc, path)) then ParseOrEmpty(rc, Yaml, FileContent(rc, path).value) else EmptyHash)
  {
  }

  lemma HoundConfigFileLiteral()
    ensures HoundConfigFile == "" + ".hound" + ".yml"
    ensures '/' !in ".hound" && ".hound"[1] != '.'
  {
  }

  /** The root file is always read with the YAML parser. */
  lemma HoundConfigFileIsYaml()
    ensures FormatOf(HoundConfigFile) == Some(Yaml)
  {
    HoundConfigFileLiteral();
    YmlFileIsYaml("", ".hound");
  }

  /**
   `hound_config`: the root file's parsed hash, or the empty hash when the
   file is absent, blank, unparsable, or parses to something other than a
   hash. The YAML parser is the one `load_file` picks for the root file
   (HoundConfigLoadsRootFile).
   */
  function HoundConfig(rc: RepoConfig): map<string, Value> {
    var content := FileContent(rc, HoundConfigFile);
    if !Present(content) then map[]
    else
      match rc.parse(Yaml, content.value)
      case Some(Obj(m)) => m
      case _ => map[]
  }

  /** `content.is_a?(Hash) ? content : {}`. */
  function AsHash(v: Value): map<string, Value> {
    if v.Obj? then v.fields else map[]
  }

  /** The root hash read through `load_file` from any YAML path holding the root file's content. */
  lemma {:induction false} HoundConfigFromYamlPath(rc: RepoConfig, path: string)
    requires FormatOf(path) == Some(Yaml)
    requires FileContent(rc, path) == FileContent(rc, HoundConfigFile)
    ensures LoadFile(rc, path).Ok?
    ensures HoundConfig(rc) == AsHash(LoadFile(rc, path).value)
  {
    LoadYamlFile(rc, path);
  }

  /**
   `hound_config` is `load_file(HOUND_CONFIG_FILE)` kept only when it is a
   hash: loading the root file never raises, and anything but a hash
   (including the `{}` of an absent, blank or unparsable file) reads as `{}`.
   */
  lemma HoundConfigLoadsRootFile(rc: RepoConfig)
    ensures LoadFile(rc, HoundConfigFile).Ok?
    ensures HoundConfig(rc) == AsHash(LoadFile(rc, HoundConfigFile).value)
  {
    HoundConfigFileIsYaml();
    HoundConfigFromYamlPath(rc, HoundConfigFile);
  }

  /** `legacy_config?`: the root names none of the guides with its snake-case key. */
  predicate LegacyConfig(rc: RepoConfig) {
    forall g | g in StyleGuides :: SnakeName(g) !in HoundConfig(rc)
  }

  /** `hound_config[name] || hound_config[name.camelize]`. */
  function SubBlock(h: map<string, Value>, g: Guide): (b: Value)
    ensures Truthy(Lookup(h, SnakeName(g))) ==> b == h[SnakeName(g)]
    ensures !Truthy(Lookup(h, SnakeName(g))) ==> b == Lookup(h, CamelName(g))
  {
    var snake := Lookup(h, SnakeName(g));
    if Truthy(snake) then snake else Lookup(h, CamelName(g))
  }

  /** A hash whose `enabled` or `Enabled` entry is exactly `true`. */
  predicate FlagSet(block: Value) {
    block.Obj? && (Lookup(block.fields, "enabled") == Bool(true) || Lookup(block.fields, "Enabled") == Bool(true))
  }

  /** `enabled_in_config?`; Index raises for a block that is `true`, a number or an array. */
  function EnabledInConfig(rc: RepoConfig, g: Guide): Result<bool> {
    var config := SubBlock(HoundConfig(rc), g);
    if !Truthy(config) then Ok(false)
    else
      match Index(config, "enabled")
      case Raise(f) => Raise(f)
      case Ok(flag) =>
        if flag == Bool(true) then Ok(true)
        else
          match Index(config, "Enabled")
          case Raise(f) => Raise(f)
          case Ok(other) => Ok(other == Bool(true))
  }

  /**
   `enabled_for?`: Ruby is on in legacy mode; otherwise a guide is on exactly
   when its block (snake or camelized key) is a hash whose `enabled` or
   `Enabled` is the boolean `true` -- a truthy string or number does not count.
   */
  function EnabledFor(rc: RepoConfig, g: Guide): (r: Result<bool>)
    ensures g == Ruby && LegacyConfig(rc) ==> r == Ok(true)
    ensures r == Ok(true) <==> (g == Ruby && LegacyConfig(rc)) || FlagSet(SubBlock(HoundConfig(rc), g))
    ensures r.Raise? <==>
      && !(g == Ruby && LegacyConfig(rc))
      && var b := SubBlock(HoundConfig(rc), g);
      Truthy(b) && !b.Obj? && !b.Str?
  {
    if g == Ruby && LegacyConfig(rc) then Ok(true) else EnabledInConfig(rc, g)
  }

  /** `config_path_for`: the snake-case block's `config_file`, or the falsy block itself. */
  function ConfigPathFor(rc: RepoConfig, g: Guide): (r: Result<Value>)
    ensures !Truthy(Lookup(HoundConfig(rc), SnakeName(g))) ==> r.Ok? && !Truthy(r.value)
    ensures Lookup(HoundConfig(rc), SnakeName(g)).Obj? ==>
      r == Ok(Lookup(Lookup(HoundConfig(rc), SnakeName(g)).fields, "config_file"))
  {
    var block := Lookup(HoundConfig(rc), SnakeName(g));
    if !Truthy(block) then Ok(block) else Index(block, "config_file")
  }

  /**
   `for`: in legacy mode Ruby gets the whole root hash; otherwise the file
   the snake-case block's `config_file` points to, loaded leniently, and
   `{}` when there is no pointer. The camelized block is never consulted.
   A pointer that is not a string raises in `File.extname`.
   */
  function For(rc: RepoConfig, g: Guide): (r: Result<Value>)
    ensures g == Ruby && LegacyConfig(rc) ==> r == Ok(Obj(HoundConfig(rc)))
    ensures !(g == Ruby && LegacyConfig(rc)) ==>
      var block := Lookup(HoundConfig(rc), SnakeName(g));
      && (!Truthy(block) ==> r == Ok(EmptyHash))
      && (block.Obj? && !Truthy(Lookup(block.fields, "config_file")) ==> r == Ok(EmptyHash))
      && (block.Obj? && Lookup(block.fields, "config_file").Str? ==>
            r == LoadFile(rc, Lookup(block.fields, "config_file").s))
  {
    if g == Ruby && LegacyConfig(rc) then Ok(Obj(HoundConfig(rc)))
    else
      match ConfigPathFor(rc, g)
      case Raise(f) => Raise(f)
      case Ok(path) =>
        if !Truthy(path) then Ok(EmptyHash)
        else if !path.Str? then Raise(TypeError)
        else LoadFile(rc, path.s)
  }

  /**
   One guide of the intended validation pass: Ok(true) when the guide points
   to a file with content that its parser rejects, Ok(false) when it has no
   pointer, a blank file, or a file that parses.
   */
  function GuideConfigInvalid(rc: RepoConfig, g: Guide): (r: Result<bool>)
    ensures ConfigPathFor(rc, g).Ok? && !Truthy(ConfigPathFor(rc, g).value) ==> r == Ok(false)
  {
    match ConfigPathFor(rc, g)
    case Raise(f) => Raise(f)
    case Ok(path) =>
      if !Truthy(path) then Ok(false)
      else if !path.Str? then Raise(TypeError)
      else
        var content := FileContent(rc, path.s);
        if !Present(content) then Ok(false)
        else
          match FormatOf(path.s)
          case None => Raise(NoMethodError)
          case Some(f) => Ok(rc.parse(f, content.value).None?)
  }

  /** A guide is invalid exactly when it points to a file with content that the parser its extension names rejects. */
  lemma GuideConfigInvalidExactly(rc: RepoConfig, g: Guide)
    ensures GuideConfigInvalid(rc, g) == Ok(true) <==>
      && ConfigPathFor(rc, g).Ok? && ConfigPathFor(rc, g).value.Str?
      && var path := ConfigPathFor(rc, g).value.s;
      && Present(FileContent(rc, path)) && FormatOf(path).Some?
      && rc.parse(FormatOf(path).value, FileContent(rc, path).value).None?
  {
  }

  /** The reference list of validation errors: one message per invalid guide, in order. */
  function ErrorMessages(rc: RepoConfig, invalidConfig: string -> string, gs: seq<Guide>): (errs: seq<string>)
    ensures |errs| <= |gs|
  {
    if gs == [] then []
    else
      var rest := ErrorMessages(rc, invalidConfig, gs[1..]);
      if GuideConfigInvalid(rc, gs[0]) == Ok(true) then [invalidConfig(SnakeName(gs[0]))] + rest else rest
  }

  lemma ErrorMessagesCons(rc: RepoConfig, invalidConfig: string -> string, g: Guide, gs: seq<Guide>)
    ensures ErrorMessages(rc, invalidConfig, [g] + gs)
      == (if GuideConfigInvalid(rc, g) == Ok(true) then [invalidConfig(SnakeName(g))] else [])
         + ErrorMessages(rc, invalidConfig, gs)
  {
    assert ([g] + gs)[1..] == gs;
  }

  /** With every guide valid, the reference list of errors is empty. */
  lemma {:induction false} AllValidGuidesNoErrors(rc: RepoConfig, invalidConfig: string -> string, gs: seq<Guide>)
    requires forall h | h in gs :: GuideConfigInvalid(rc, h) == Ok(false)
    ensures ErrorMessages(rc, invalidConfig, gs) == []
    decreases |gs|
  {
    if gs != [] {
      assert gs[0] in gs;
      assert forall h | h in gs[1..] :: h in gs;
      AllValidGuidesNoErrors(rc, invalidConfig, gs[1..]);
    }
  }

  /** `STYLE_GUIDES.each`: stop at the first guide that raises, else append one error per invalid guide. */
  function ValidateGuides(rc: RepoConfig, invalidConfig: string -> string, gs: seq<Guide>, errs: seq<string>)
    : (r: Result<seq<string>>)
    ensures r.Ok? <==> forall i | 0 <= i < |gs| :: GuideConfigInvalid(rc, gs[i]).Ok?
    ensures r.Ok? ==> r.value == errs + ErrorMessages(rc, invalidConfig, gs)
  {
    if gs == [] then Ok(errs)
    else
      match GuideConfigInvalid(rc, gs[0])
      case Raise(f) => Raise(f)
      case Ok(invalid) =>
        var r := ValidateGuides(rc, invalidConfig, gs[1..], if invalid then errs + [invalidConfig(SnakeName(gs[0]))] else errs);
        assert forall i | 1 <= i < |gs| :: gs[1..][i - 1] == gs[i];
        r
  }

  /**
   `validate` as intended: clear `errors`, then visit the three guides in
   declaration order. The errors held before the call play no part in the
   result. `invalidConfig` is the `invalid_config` translation.
   */
  function Validate(rc: RepoConfig, invalidConfig: string -> string, errorsBefore: seq<string>)
    : (r: Result<seq<string>>)
    ensures r.Ok? <==> forall g | g in StyleGuides :: GuideConfigInvalid(rc, g).Ok?
    ensures r.Ok? ==> r.value == ErrorMessages(rc, invalidConfig, StyleGuides)
  {
    var r := ValidateGuides(rc, invalidConfig, StyleGuides, []);
    assert forall g | g in StyleGuides :: exists i | 0 <= i < |StyleGuides| :: StyleGuides[i] == g;
    r
  }

  /** The invalid_config message tells the guides apart. */
  ghost predicate NamesGuide(invalidConfig: string -> string) {
    forall a: Guide, b: Guide :: invalidConfig(SnakeName(a)) == invalidConfig(SnakeName(b)) ==> a == b
  }

  /** An error names a guide exactly when that guide is in the list and its file fails to parse. */
  lemma {:induction false} ErrorMessagesNameInvalidGuides(
    rc: RepoConfig, invalidConfig: string -> string, gs: seq<Guide>, g: Guide)
    requires NamesGuide(invalidConfig)
    ensures invalidConfig(SnakeName(g)) in ErrorMessages(rc, invalidConfig, gs)
      <==> g in gs && GuideConfigInvalid(rc, g) == Ok(true)
    decreases |gs|
  {
    if gs != [] {
      ErrorMessagesNameInvalidGuides(rc, invalidConfig, gs[1..], g);
      assert g in gs <==> g == gs[0] || g in gs[1..] by {
        assert gs == [gs[0]] + gs[1..];
      }
    }
  }

  /** A guide without a `config_file` pointer is skipped: no error names it. */
  lemma ValidateSkipsGuideWithoutPointer(
    rc: RepoConfig, invalidConfig: string -> string, errorsBefore: seq<string>, g: Guide)
    requires NamesGuide(invalidConfig)
    requires !Truthy(Lookup(HoundConfig(rc), SnakeName(g)))
      || (Lookup(HoundConfig(rc), SnakeName(g)).Obj?
          && !Truthy(Lookup(Lookup(HoundConfig(rc), SnakeName(g)).fields, "config_file")))
    ensures GuideConfigInvalid(rc, g) == Ok(false)
    ensures Validate(rc, invalidConfig, errorsBefore).Ok? ==>
      invalidConfig(SnakeName(g)) !in Validate(rc, invalidConfig, errorsBefore).value
  {
    ErrorMessagesNameInvalidGuides(rc, invalidConfig, StyleGuides, g);
  }

  /**
   A root config `{guide: {enabled: true, config_file: path}}` whose file has
   malformed content validates to exactly one error, naming that guide.
   */
  lemma MalformedGuideFileYieldsOneError(
    rc: RepoConfig, invalidConfig: string -> string, errorsBefore: seq<string>, g: Guide, path: string)
    requires HoundConfig(rc) == map[SnakeName(g) := Obj(map["enabled" := Bool(true), "config_file" := Str(path)])]
    requires Present(FileContent(rc, path)) && FormatOf(path).Some?
    requires rc.parse(FormatOf(path).value, FileContent(rc, path).value).None?
    ensures Validate(rc, invalidConfig, errorsBefore) == Ok([invalidConfig(SnakeName(g))])
  {
    assert ConfigPathFor(rc, g) == Ok(Str(path));
    MalformedFileIsInvalid(rc, g, path);
    forall h | h != g
      ensures GuideConfigInvalid(rc, h) == Ok(false)
    {
      assert SnakeName(h) != SnakeName(g);
      assert Lookup(HoundConfig(rc), SnakeName(h)) == Null;
    }
    OneInvalidGuide(rc, invalidConfig, errorsBefore, g);
  }

  lemma MalformedFileIsInvalid(rc: RepoConfig, g: Guide, path: string)
    requires ConfigPathFor(rc, g) == Ok(Str(path))
    requires Present(FileContent(rc, path)) && FormatOf(path).Some?
    requires rc.parse(FormatOf(path).value, FileContent(rc, path).value).None?
    ensures GuideConfigInvalid(rc, g) == Ok(true)
  {
  }

  /** When exactly one guide is invalid and none raises, validation reports that guide alone. */
  lemma OneInvalidGuide(rc: RepoConfig, invalidConfig: string -> string, errorsBefore: seq<string>, g: Guide)
    requires GuideConfigInvalid(rc, g) == Ok(true)
    requires forall h | h != g :: GuideConfigInvalid(rc, h) == Ok(false)
    ensures Validate(rc, invalidConfig, errorsBefore) == Ok([invalidConfig(SnakeName(g))])
  {
    var msg := invalidConfig(SnakeName(g));
    var all := ErrorMessages(rc, invalidConfig, StyleGuides);
    assert all == [msg] by {
      ErrorMessagesCons(rc, invalidConfig, JavaScript, []);
      ErrorMessagesCons(rc, invalidConfig, CoffeeScript, [JavaScript]);
      ErrorMessagesCons(rc, invalidConfig, Ruby, [CoffeeScript, JavaScript]);
      assert [JavaScript] + [] == [JavaScript];
      assert [CoffeeScript] + [JavaScript] == [CoffeeScript, JavaScript];
      assert [Ruby] + [CoffeeScript, JavaScript] == StyleGuides;
      assert ErrorMessages(rc, invalidConfig, []) == [];
    }
    assert forall h | h in StyleGuides :: GuideConfigInvalid(rc, h).Ok?;
  }

  /** A root file that parses to something other than a hash reads as `{}`, so the commit is in legacy mode. */
  lemma NonHashRootIsLegacy(rc: RepoConfig, v: Value)
    requires Present(FileContent(rc, HoundConfigFile))
    requires rc.parse(Yaml, FileContent(rc, HoundConfigFile).value) == Some(v) && !v.Obj?
    ensures HoundConfig(rc) == map[]
    ensures LegacyConfig(rc)
    ensures EnabledFor(rc, Ruby) == Ok(true) && For(rc, Ruby) == Ok(EmptyHash)
    ensures EnabledFor(rc, CoffeeScript) == Ok(false) && EnabledFor(rc, JavaScript) == Ok(false)
  {
  }

  /**
   Legacy mode looks at snake-case keys only: a root holding just a
   camelized `Ruby` block, even one that disables it, still enables Ruby and
   hands it the whole root.
   */
  lemma CamelizedRubyKeyKeepsLegacyMode(rc: RepoConfig, block: Value)
    requires HoundConfig(rc) == map["Ruby" := block]
    ensures LegacyConfig(rc)
    ensures EnabledFor(rc, Ruby) == Ok(true)
    ensures For(rc, Ruby) == Ok(Obj(map["Ruby" := block]))
  {
  }

  /**
   Legacy mode does not switch the other guides off: a camelized block with
   its flag set still enables that guide while Ruby stays in legacy mode.
   */
  lemma CamelizedGuideEnabledInLegacyMode(rc: RepoConfig, g: Guide)
    requires g != Ruby
    requires HoundConfig(rc) == map[CamelName(g) := Obj(map["enabled" := Bool(true)])]
    ensures LegacyConfig(rc)
    ensures EnabledFor(rc, Ruby) == Ok(true) && EnabledFor(rc, g) == Ok(true)
  {
    assert SubBlock(HoundConfig(rc), g) == Obj(map["enabled" := Bool(true)]);
  }

  /** Any snake-case guide key leaves legacy mode; Ruby then needs its own flag. */
  lemma ExplicitGuideKeyLeavesLegacy(rc: RepoConfig, g: Guide)
    requires SnakeName(g) in HoundConfig(rc)
    ensures !LegacyConfig(rc)
    ensures EnabledFor(rc, Ruby) == Ok(true) <==> FlagSet(SubBlock(HoundConfig(rc), Ruby))
  {
    assert g in StyleGuides;
  }
}
