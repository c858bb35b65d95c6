# Hound review core in Dafny

This project models the core of Hound, the service that reviews GitHub pull requests for style violations. It covers three parts:

- **Configuration resolution (`RepoConfig`).**
  - Which style guides (ruby, coffee_script, java_script) a commit enables, read from the committed `.hound.yml`, including the backward-compatible legacy mode.
  - Which settings each guide receives: the root hash in legacy mode, or the YAML/JSON file that the guide's `config_file` points to.
  - How the guide configuration files are validated.
- **The review run (`BuildRunner#run`).**
  - Two gates: the event must name an active repo, and it must be an opened or synchronized pull request.
  - Then a fixed sequence of effects: comment the configuration errors, record one build, comment on the violations, and track one "Reviewed Repo" event per user of the repo.
- **Violations.** `Violation#add_messages` accumulates messages in order with duplicates kept. The `on_changed_line?` and `patch_position` delegations read only the stored line.

Modules, one per file:

- `Values` (`values.dfy`): the Ruby values a YAML/JSON document loads into, plus the pieces of the object model the code depends on:
  - truthiness;
  - `receiver[key]` for each receiver class;
  - the two exceptions that can escape: `NoMethodError` and `TypeError`.
- `Formats` (`formats.dfy`): `File.extname` (Unix rules, as Ruby 2.7 and later have it) and the `FILE_TYPES` table. Earlier Ruby returns `""` rather than `"."` for a name ending in a dot; `FILE_TYPES` picks no parser for either, so the choice of format is the same.
- `RepoConfigs` (`repo_config.dfy`): `enabled_for?`, `for`, and validation as intended.
- `RepoConfigAsWritten` (`repo_config_as_written.dfy`): `validate` as the code has it, assuming the `debugger` call and `commit.file_content` return normally (see "## Left out").
- `Violations` (`violation.dfy`): the violation record and `add_messages`.
- `BuildRunners` (`build_runner.dfy`): `run` over a world of repos and an ordered log of outward calls.

The YAML/JSON parser, the `invalid_config` translation and `to_sentence` are parameters. The commit's files are a map from path to content.

Two behaviours of the code are easy to miss:

- Legacy mode does not switch off the other guides. It only checks for snake-case guide keys, so a camelized `CoffeeScript: {enabled: true}` keeps the commit in legacy mode and still enables CoffeeScript (`RepoConfigs.CamelizedGuideEnabledInLegacyMode`).
- A guide file with content and an extension outside `FILE_TYPES` raises NoMethodError, because `parse_` is undefined; it does not read as `{}` (`RepoConfigs.LoadFile`).

## Model

| member | source | states |
|---|---|---|
| Values.Index | app/models/repo_config.rb:45-48 | Reading `config["enabled"]`: a hash gives its entry (nil when the key is missing). A string gives nil or the key itself, never the flag `true`. nil and booleans raise NoMethodError. Integers and arrays raise TypeError. |
| Formats.ExtnameIsSuffix | app/models/repo_config.rb:72 | The extension `File.extname` reports is a suffix of the path (trailing slashes ignored). It is empty or starts with a dot. |
| Formats.ExtOfIsLastDotSuffix | app/models/repo_config.rb:72 | The extension of a base name runs from its last dot to its end. It is empty exactly when the name has no dot. |
| Formats.ExtnameOfNamedFile | app/models/repo_config.rb:72 | A file `dir/name.ext` has extension `.ext` whatever the directory. This holds when the name has a visible stem, and leading dots (hidden files) do not count. |
| Formats.FormatFollowsSuffix | app/models/repo_config.rb:3-6 | `FILE_TYPES` picks YAML only for paths ending `.yml` and JSON only for paths ending `.json`. |
| Formats.YmlFileIsYaml | app/models/repo_config.rb:3-6 | Every `.yml` file with a visible stem is read with the YAML parser. |
| Formats.JsonFileIsJson | app/models/repo_config.rb:3-6 | Every `.json` file with a visible stem is read with the JSON parser. |
| Formats.Extname | app/models/repo_config.rb:72 | Ruby's `File.extname` on Unix paths: trailing slashes dropped, last path component, leading dots skipped, suffix from the last dot. Its properties are stated by `Formats.ExtnameIsSuffix`, `Formats.ExtOfIsLastDotSuffix` and `Formats.ExtnameOfNamedFile`. |
| Formats.FormatOf | app/models/repo_config.rb:3-6 | `FILE_TYPES[File.extname(path)]`: YAML for `.yml`, JSON for `.json`, nil otherwise. Stated by `Formats.FormatFollowsSuffix`, `Formats.YmlFileIsYaml` and `Formats.JsonFileIsJson`. |
| RepoConfigs.Present | app/models/repo_config.rb:74 | `present?` on file content: only content with at least one character counts, and content starting with a non-blank character always counts. |
| RepoConfigs.ParseOrEmpty | app/models/repo_config.rb:81-91 | `parse_yaml` / `parse_json` with the default callback: the parse, or `{}` on a syntax error. Stated through `RepoConfigs.LoadFile` and `RepoConfigs.LoadYamlFile`. |
| RepoConfigs.HoundConfigFileIsYaml | app/models/repo_config.rb:7 | `.hound.yml` is read with the YAML parser. |
| RepoConfigs.LoadFile | app/models/repo_config.rb:70-79 | Absent or blank content loads as `{}`. Content whose parser raises a syntax error also loads as `{}`. Other content loads as what the parser returns. A file with content raises NoMethodError exactly when its extension is unknown. |
| RepoConfigs.LoadYamlFile | app/models/repo_config.rb:81-85 | Loading a `.yml` path never raises. It gives the YAML parse of present content, with a syntax error rescued to `{}`. |
| RepoConfigs.HoundConfigLoadsRootFile | app/models/repo_config.rb:54-63 | Loading `.hound.yml` never raises. The root hash is its loaded value when that is a hash, and `{}` otherwise. |
| RepoConfigs.HoundConfig | app/models/repo_config.rb:54-63 | `hound_config`: the root file's hash, or `{}`. `RepoConfigs.HoundConfigLoadsRootFile` proves it equal to `load_file(HOUND_CONFIG_FILE)` filtered by `is_a?(Hash)`. |
| RepoConfigs.LegacyConfig | app/models/repo_config.rb:50-52 | `legacy_config?`: no snake-case guide name among the root keys. Stated by `RepoConfigs.CamelizedRubyKeyKeepsLegacyMode`, `RepoConfigs.ExplicitGuideKeyLeavesLegacy` and `RepoConfigs.NonHashRootIsLegacy`. |
| RepoConfigs.EnabledInConfig | app/models/repo_config.rb:45-48 | `enabled_in_config?` with the `[]` of each receiver class. `RepoConfigs.EnabledFor` states its result: enabled exactly when `FlagSet` of the block, raising exactly for a truthy non-hash non-string block. |
| RepoConfigs.NonHashRootIsLegacy | app/models/repo_config.rb:54-63 | A root file that parses to a non-hash reads as `{}`. Ruby is then enabled and gets `{}`, and the other guides are disabled. |
| RepoConfigs.SubBlock | app/models/repo_config.rb:46 | A guide's block is its truthy snake-case entry if there is one, and otherwise its camelized entry. |
| RepoConfigs.EnabledFor | app/models/repo_config.rb:17-20 | Ruby is enabled in legacy mode. Otherwise a guide is enabled exactly when its block is a hash whose `enabled` or `Enabled` is boolean `true`. It raises exactly when the block is truthy but neither a hash nor a string. |
| RepoConfigs.CamelizedRubyKeyKeepsLegacyMode | app/models/repo_config.rb:50-52 | Legacy mode looks at snake-case keys only. A root with just a `Ruby` block stays legacy, enables Ruby, and hands Ruby the whole root. |
| RepoConfigs.CamelizedGuideEnabledInLegacyMode | app/models/repo_config.rb:17-20 | In legacy mode, a camelized CoffeeScript or JavaScript block with `enabled: true` still enables that guide. |
| RepoConfigs.ExplicitGuideKeyLeavesLegacy | app/models/repo_config.rb:50-52 | Any snake-case guide key ends legacy mode. Ruby is then enabled only by its own flag. |
| RepoConfigs.ConfigPathFor | app/models/repo_config.rb:65-68 | A missing or falsy guide block yields a falsy pointer. A hash block yields its `config_file` entry. |
| RepoConfigs.For | app/models/repo_config.rb:22-34 | In legacy mode Ruby gets the whole root hash. Otherwise a guide with no block, or no `config_file`, gets `{}`. A guide with a string `config_file` gets that file loaded leniently. The camelized block is never consulted. |
| RepoConfigs.GuideConfigInvalid | app/models/repo_config.rb:93-108 | A guide with no pointer is never reported invalid. |
| RepoConfigs.GuideConfigInvalidExactly | app/models/repo_config.rb:93-108 | A guide is reported invalid exactly when it points to a file that has content and whose extension names a parser, and that parser rejects the content. |
| RepoConfigs.ErrorMessages | app/models/repo_config.rb:110-112 | Each guide adds at most one error. |
| RepoConfigs.ErrorMessagesNameInvalidGuides | app/models/repo_config.rb:110-112 | When messages tell guides apart, an error names a guide exactly when that guide is visited and its file fails to parse. |
| RepoConfigs.ValidateGuides | app/models/repo_config.rb:94-107 | The loop completes exactly when no guide raises. It then yields the earlier errors followed by one error per invalid guide, in visiting order. |
| RepoConfigs.Validate | app/models/repo_config.rb:36-39 | Validation completes exactly when no guide raises. Its errors are then the invalid guides' messages in `STYLE_GUIDES` order. Errors held before the call are cleared and play no part. |
| RepoConfigs.AllValidGuidesNoErrors | app/models/repo_config.rb:36-39 | With every guide valid, validation reports no errors. |
| RepoConfigs.ValidateSkipsGuideWithoutPointer | app/models/repo_config.rb:95-98 | A guide with no block, or whose block has no `config_file`, is skipped. No error names it. |
| RepoConfigs.MalformedGuideFileYieldsOneError | app/models/repo_config.rb:100-112 | A root `{guide: {enabled: true, config_file: path}}` whose file is malformed validates to exactly one error, naming that guide. |
| RepoConfigAsWritten.GuideStepAsWritten | app/models/repo_config.rb:95-106 | One loop iteration as written: a guide with no block raises TypeError (`File.extname(nil)`); a string pointer to present content raises NoMethodError (the eager `errors <`); a string pointer to blank or absent content completes. |
| RepoConfigAsWritten.StepsAsWritten | app/models/repo_config.rb:94-107 | The loop as written completes exactly when every guide's step completes. |
| RepoConfigAsWritten.StepFaultStopsLoop | app/models/repo_config.rb:94-107 | One raising guide makes the whole loop raise. |
| RepoConfigAsWritten.ValidateAsWritten | app/models/repo_config.rb:93-112 | `validate` as written completes exactly when every guide points to a string path whose file is blank or absent. When it completes it records no error. |
| RepoConfigAsWritten.GuideWithoutPointerRaisesAsWritten | app/models/repo_config.rb:95-98 | As written, a guide with no block, or whose block has no `config_file` (e.g. `ruby: {enabled: true}`), makes `validate` raise (in `File.extname(nil)`). The intended pass skips that guide. |
| RepoConfigAsWritten.WellFormedFileRaisesAsWritten | app/models/repo_config.rb:100-111 | As written, a guide whose file is present and well formed makes `validate` raise. The intended pass reports nothing for it. |
| RepoConfigAsWritten.EmptyCommitRaisesAsWritten | app/models/repo_config.rb:93-98 | On a commit with no files, `validate` as written raises TypeError. The intended pass reports no errors. |
| Violations.NewViolation | db/migrate/20141107174021_create_violations.rb:9-13 | A new row keeps the required columns as given and starts with no messages. |
| Violations.AddMessages | app/models/violation.rb:19-21 | The old messages are kept as a prefix, and the new ones follow in order. The count is the sum. The other columns are unchanged. |
| Violations.AddMessagesAppendsEach | app/models/violation.rb:19-21 | Concatenating is the same as appending the new messages one at a time, front to back. |
| Violations.AddMessagesKeepsDuplicates | app/models/violation.rb:23-25 | No deduplication happens: the multiset of messages is the old one plus the new one. |
| Violations.RepeatedMessageIsStoredTwice | app/models/violation.rb:23-25 | Adding the same message twice stores it twice. |
| Violations.AddNoMessages | app/models/violation.rb:19-21 | Adding an empty list leaves the violation unchanged. |
| Violations.AddMessagesTwice | app/models/violation.rb:19-21 | Two calls accumulate like one call with both lists in order. |
| Violations.OnChangedLine | app/models/violation.rb:31-33 | `on_changed_line?` asks the stored line. Stated by `Violations.DelegationsIgnoreMessages`. |
| Violations.PatchPosition | app/models/violation.rb:27-29 | `patch_position` asks the stored line. Stated by `Violations.DelegationsIgnoreMessages`. |
| Violations.DelegationsIgnoreMessages | app/models/violation.rb:27-33 | `on_changed_line?` and `patch_position` answer from the stored line, so adding messages never changes them. |
| BuildRunners.RelevantPullRequest | app/services/build_runner.rb:19-21 | Only opened and synchronized pull requests are reviewed. `BuildRunners.Run` states that any other action leaves the world unchanged. |
| BuildRunners.FindActiveRepo | app/services/build_runner.rb:51-53 | The selected repo is active and has the payload's GitHub id, and it is the first such repo. There is none exactly when no repo is both. |
| BuildRunners.AppendBuild | app/services/build_runner.rb:7-11 | Exactly one build is appended to the selected repo. Every other repo, and every other field, is unchanged. |
| BuildRunners.AppendBuildAddsOneBuild | spec/services/build_runner_spec.rb:17-24 | A reviewed event raises the total number of builds by exactly one. |
| BuildRunners.ConfigErrorComments | app/services/build_runner.rb:26-28 | There is no comment when there are no errors. Otherwise there is exactly one comment, holding all errors joined. |
| BuildRunners.ReviewEffects | app/services/build_runner.rb:55-60 | There is one "Reviewed Repo" event per user, for that repo's name, in user order. |
| BuildRunners.ValidateConfig | app/services/build_runner.rb:23-29 | A raise in validation is passed on with nothing logged. Otherwise the errors of a fresh validation are commented once when there are any. |
| BuildRunners.TrackReviewedRepoForEachUser | app/services/build_runner.rb:55-60 | The loop keeps the earlier log as a prefix and appends exactly one review event per user, in order. |
| BuildRunners.Run | app/services/build_runner.rb:4-15 | No active repo with the id, or an action other than opened/synchronize, leaves everything unchanged. A raise in validation leaves the world unchanged and is reported. Otherwise the log grows by, in order: the config-error comment (if any), one build with the payload's number and head sha, the same violations commented, and one review per user. |

## Left out

- `RepoActivator` (activation lifecycle) and the job queue are not part of this model.
- `StyleChecker`, `Commenter`, `PullRequest`, `Analytics`, GitHub and the database are not modelled. Their observable calls are entries of an ordered effect log, and the style checker's violations are an input computed once.
- YAML and JSON parsing is an abstract parameter. None stands for the syntax error that `parse_yaml`/`parse_json` rescue. Other exceptions a parser might raise (for example a disallowed YAML class) are not modelled.
- The `invalid_config` translation and `to_sentence` are parameters, because I18n and ActiveSupport formatting are outside the model.
- `commit.file_content` is a map from path to content. For a nil path (repo_config.rb:97) it is assumed to return; the TypeError that the as-written loop then raises in `File.extname(nil)` rests on that assumption and on the `debugger` one below. Either call raising instead would still make `validate` raise for that guide.
- Style guide names outside `ruby`, `coffee_script` and `java_script` are not modelled, because guides are a closed type. `camelize` is a fixed table for the three names.
- Hash keys in loaded documents are strings only. Floats, symbols and dates are not values of the model.
- `present?` treats only ASCII whitespace (space, tab, LF, VT, FF, CR) as blank. Other Unicode whitespace is not modelled.
- The `debugger` call at repo_config.rb:96 is modelled as a no-op, a modelling choice. In Ruby, `debugger` is defined only by a debugger gem: with one such as byebug loaded it opens an interactive session at that point; without one the bare name raises NameError, so every as-written `validate` would raise there.
- The memoisation of `hound_config`, `repo` and `violations` is modelled as each value being computed once per run. Concurrency between runs is not modelled.
- BuildRunners.Run: uses the intended `RepoConfigs.Validate`. The as-written `validate` raises for nearly every commit (see Findings), so a run modelled on it would almost never get past validation.
- `File.extname` follows the Unix rules. Windows separators and drive letters are not modelled.

## Findings

| source | as written | input that shows it | evidently intended | confidence | as-written member | corrected member |
|---|---|---|---|---|---|---|
| app/models/repo_config.rb:95-98 | For a guide with no `config_file`, `config_path_for` returns nil, and `File.extname(nil)` raises TypeError. | A commit with no files at all, or any root config that omits `config_file` for some guide, e.g. `ruby: {enabled: true}`. | A guide without a pointer is skipped. | not executed | RepoConfigAsWritten.EmptyCommitRaisesAsWritten | RepoConfigs.ValidateSkipsGuideWithoutPointer |
| app/models/repo_config.rb:100-111 | The argument `add_config_error(style_guide)` is evaluated before the parser runs, and `errors < message` calls a method Array does not have. So any guide file with content raises NoMethodError, valid or not. | `{ruby: {enabled: true, config_file: "config/rubocop.yml"}}` with a well-formed `config/rubocop.yml`. | The error is appended with `<<`, and only when the parser rejects the file. | not executed | RepoConfigAsWritten.WellFormedFileRaisesAsWritten | RepoConfigs.MalformedGuideFileYieldsOneError |
