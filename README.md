# A verified model of the Home Assistant GitOps bridge core

The GitOps bridge keeps a Home Assistant configuration directory under git. Its centre is
**YAML Modules**. Users split automations, scripts, groups, scenes, templates, helpers and
dashboards into small *module files* under `packages/` and the domain folders. The bridge
reconciles those files with the single *domain files* Home Assistant reads
(`automations.yaml`, `scripts.yaml`, ...), in both directions. For each domain it does this:

- it reads both sides into items with ids and content fingerprints;
- it decides from stored hashes which side is preferred;
- it merges item by item, keeping `!/packages/...template.yaml` template includes intact and
  proposing template diffs for edits that belong in a template;
- it writes the module files and the domain file only when their text changes, and rebuilds
  the mapping of ids to module files.

It also repairs automation ids that Home Assistant rewrote, and offers an item browser that
selects, removes and appends items between module files.

This project models in Dafny:

- the reconciliation engine (`yaml_modules.py`);
- the include and template expander it relies on (`yaml_tags.py`);
- the small parsers and validators around it:
  - the parsers of git output (`git_ops.py`);
  - `.gitignore` handling (`gitignore_ops.py`);
  - the groups file and restart acknowledgement (`groups.py`);
  - the bridge's settings file (`config_store.py`);
  - the registry exports (`exports.py`);
  - the automation-id snapshot spike (`spikes/automation_id_spike.py`).

Each source file maps to Dafny modules as follows:

- `yaml_modules.py` is split by concern:
  - `ModuleDomains`: the domain registry;
  - `ItemIds`, `Fingerprints` and `Preference`;
  - `ModuleItems` and `ModuleFiles`: reading items and files;
  - `SyncIndex`, `SyncChoose` and `SyncOutput`: the per-domain sync;
  - `TemplateMerge` and `TemplateDiffs`;
  - `YamlWrites`: writing only what changed;
  - `ReconcileIds`;
  - `ItemRemoval`, `ItemAppend` and `CrudPaths`: the item browser;
  - `Markers`: the legacy marker splice.
- `yaml_tags.py` becomes `YamlTags`.
- The small parsers become `GitOps`, `GitignoreOps`, `Groups`, `ConfigStore`, `Exports` and
  `AutomationIdSpike`.
- `Yaml`, `Text`, `Paths` and `Wrappers` are shared primitives: YAML values, Python string
  operations, lexical `pathlib`, and Option/Result.

The form follows the source:

- Loops that build lists and dicts become methods with loop invariants. Each is proved
  against a specification function.
- Recursion and expressions become functions and lemmas.
- The mtime-keyed `.gitignore` cache becomes the class `GitignoreOps.PatternCache`.
- The restart-acknowledgement state becomes the class `Groups.RestartStore`.
- File contents, glob results, hashes, the YAML renderer and `fnmatch` are inputs or
  function parameters.

## Model

| member | source | states |
|---|---|---|
| ConfigStore.ParseBoolIgnoresCase | homeassistant_gitops/rootfs/app/gitops_bridge/config_store.py:36-42 | the boolean words are recognised whatever their letter case |
| ConfigStore.ParseBoolWord | homeassistant_gitops/rootfs/app/gitops_bridge/config_store.py:36-42 | the words the renderer writes for a flag read back as that flag |
| ConfigStore.ParseScalarNull | homeassistant_gitops/rootfs/app/gitops_bridge/config_store.py:61-63 | a value reads as None exactly when it is `null` or `none` in any case |
| ConfigStore.ParseScalarDigits | homeassistant_gitops/rootfs/app/gitops_bridge/config_store.py:68-70 | text of digits reads as the number it spells |
| ConfigStore.ParseScalarWord | homeassistant_gitops/rootfs/app/gitops_bridge/config_store.py:64-67 | a flag word reads as the flag |
| ConfigStore.ConfigLine | homeassistant_gitops/rootfs/app/gitops_bridge/config_store.py:51-60 | a line that sets something has a non-empty, stripped key |
| ConfigStore.Apply | homeassistant_gitops/rootfs/app/gitops_bridge/config_store.py:49-71 | the dict built line by line holds each key once |
| ConfigStore.ApplyLastWins | homeassistant_gitops/rootfs/app/gitops_bridge/config_store.py:49-71 | every key reads as the value of the last line that sets it, and only keys some line sets are present |
| ConfigStore.WithFallback | homeassistant_gitops/rootfs/app/gitops_bridge/config_store.py:72-73 | a missing `yaml_modules_enabled` takes the value of `merge_automations`, and every other key is untouched |
| ConfigStore.LoadedConfig | homeassistant_gitops/rootfs/app/gitops_bridge/config_store.py:45-74 | the loaded config holds each key once |
| ConfigStore.LoadGitopsConfig | homeassistant_gitops/rootfs/app/gitops_bridge/config_store.py:45-74 | the imperative line loop computes `LoadedConfig` |
| ConfigStore.QuoteEscapes | homeassistant_gitops/rootfs/app/gitops_bridge/config_store.py:92-94 | replacing a backslash first and `"` second escapes each character exactly once |
| ConfigStore.UnescapeEscape | homeassistant_gitops/rootfs/app/gitops_bridge/config_store.py:92-94 | a YAML reader that honours the escapes gets the original string back |
| ConfigStore.EscapeLength | homeassistant_gitops/rootfs/app/gitops_bridge/config_store.py:92-94 | escaping adds one character for every backslash and every double quote |
| ConfigStore.QuoteValue | homeassistant_gitops/rootfs/app/gitops_bridge/config_store.py:92-94 | quoting succeeds exactly on a string, and writes it in double quotes with escapes |
| ConfigStore.RenderLinesAt | homeassistant_gitops/rootfs/app/gitops_bridge/config_store.py:97-112 | the nine rendered lines are the header and one `key: value` line per setting, in the source's order |
| ConfigStore.RenderGitopsConfig | homeassistant_gitops/rootfs/app/gitops_bridge/config_store.py:97-112 | rendering fails exactly when a string setting holds a non-string (an empty or missing remote URL is written as `""`) |
| ConfigStore.BuildOptions | homeassistant_gitops/rootfs/app/gitops_bridge/config_store.py:121-137 | the built theme is light, dark or system, and the remote URL is None or truthy |
| ConfigStore.BuildDefaults | homeassistant_gitops/rootfs/app/gitops_bridge/config_store.py:121-137 | with nothing configured every setting takes its documented default |
| ConfigStore.BuildTheme | homeassistant_gitops/rootfs/app/gitops_bridge/config_store.py:122-124 | the theme is the lower-cased `ui_theme` string when that is a theme, and `system` otherwise, non-strings included |
| ConfigStore.ReprNotTheme | homeassistant_gitops/rootfs/app/gitops_bridge/config_store.py:122-124 | no lower-cased `str()` of a non-string is a theme name |
| ConfigStore.YamlModulesFallback | homeassistant_gitops/rootfs/app/gitops_bridge/config_store.py:125-127 | the loader's `merge_automations` fallback and the builder's agree on `yaml_modules_enabled` |
| ConfigStore.CoerceConfigValue | homeassistant_gitops/rootfs/app/gitops_bridge/config_store.py:158-179 | each key accepts its own type with the source's error messages, flags only booleans, strings None as "", the theme only a theme name lower-cased, and the poll interval None or an integer |
| ConfigStore.UpdateAccepted | homeassistant_gitops/rootfs/app/gitops_bridge/config_store.py:195-200 | an update is accepted exactly when every payload key is supported and every value coerces |
| ConfigStore.UnknownKeyRejected | homeassistant_gitops/rootfs/app/gitops_bridge/config_store.py:197-199 | a payload key outside `CONFIG_KEYS` makes the whole update fail |
| ConfigStore.UpdateGet | homeassistant_gitops/rootfs/app/gitops_bridge/config_store.py:197-200 | after an accepted update each payload key holds its coerced value, and every other key keeps its value |
| ConfigStore.ApplyConfigUpdate | homeassistant_gitops/rootfs/app/gitops_bridge/config_store.py:195-203 | the imperative update applies the payload key by key, renders the result and reads it back |
| ConfigStore.ConfigLineOf | homeassistant_gitops/rootfs/app/gitops_bridge/config_store.py:51-71 | a rendered `key: text` line reads as the key and the value of the text |
| ConfigStore.QuotedReadsBack | homeassistant_gitops/rootfs/app/gitops_bridge/config_store.py:58 | a plain string is written in double quotes and read back as itself |
| ConfigStore.RenderedLines | homeassistant_gitops/rootfs/app/gitops_bridge/config_store.py:97-112 | the rendered lines of renderable options set the written entries, one line each, after the header |
| ConfigStore.RenderedOneLine | homeassistant_gitops/rootfs/app/gitops_bridge/config_store.py:97-112 | no rendered line holds a line break |
| ConfigStore.LoadRendered | homeassistant_gitops/rootfs/app/gitops_bridge/config_store.py:45-112 | renderable options are written and read back as the written dict |
| ConfigStore.FallbackPresent | homeassistant_gitops/rootfs/app/gitops_bridge/config_store.py:72-73 | the fallback leaves a dict that has `yaml_modules_enabled` alone |
| ConfigStore.BuildWritten | homeassistant_gitops/rootfs/app/gitops_bridge/config_store.py:121-137 | building options from the written dict gives back the options written |
| ConfigStore.RenderRoundTrip | homeassistant_gitops/rootfs/app/gitops_bridge/config_store.py:45-137 | writing renderable options and loading the file again gives the same options |
| ConfigStore.BackslashGrows | homeassistant_gitops/rootfs/app/gitops_bridge/config_store.py:58-94 | a backslash does not survive a save: the renderer doubles it and the loader does not undo that, so the string grows |
| ConfigStore.BackslashIsString | homeassistant_gitops/rootfs/app/gitops_bridge/config_store.py:61-71 | text holding a backslash reads as a string, never null, a flag or a number |
| CrudPaths.ResolveModulePath | homeassistant_gitops/rootfs/app/gitops_bridge/yaml_modules.py:2721-2738 | `_resolve_module_path` accepts a path exactly when it is non-blank, relative, free of `..` segments, has a YAML suffix and lives in `packages` or a browsable domain folder, and then gives its parts; each refusal carries the source's message |
| CrudPaths.ModuleFileContext | homeassistant_gitops/rootfs/app/gitops_bridge/yaml_modules.py:3645-3675 | `_module_file_context`: helpers files have no domain and every other accepted file has a registered non-template domain of the matching kind; an empty path is "not within the config directory" |
| CrudPaths.FoldersKeyed | homeassistant_gitops/rootfs/app/gitops_bridge/yaml_modules.py:3631-3635 | every module folder looks up, by key, the registered domain whose module folder it is |
| CrudPaths.KeyedSpec | homeassistant_gitops/rootfs/app/gitops_bridge/yaml_modules.py:3631-3635 | `_spec_by_key` finds every registered domain by its key |
| CrudPaths.EnsureOneOffFilename | homeassistant_gitops/rootfs/app/gitops_bridge/yaml_modules.py:3405-3415 | `_ensure_yaml_filename` refuses names with slashes before stripping; an accepted name is a non-empty plain YAML file name, the stripped name or it plus `.yaml` |
| CrudPaths.WithYamlSuffix | homeassistant_gitops/rootfs/app/gitops_bridge/yaml_modules.py:3411-3415 | a name without a suffix gets `.yaml`, and the result must have a YAML suffix |
| CrudPaths.ResolveDestinationPath | homeassistant_gitops/rootfs/app/gitops_bridge/yaml_modules.py:3418-3464 | `_resolve_destination_path`: no destination for a delete; the unassigned package file for an unassign; for a package move the package file (the package must exist for "existing_package", the name "unassigned" is reserved); for a one-off move a file in the module folder; a missing, non-dict or empty `move_target` is "move_target is required for move operations.", any other type "Unsupported move target type." |
| CrudPaths.PackageDestination | homeassistant_gitops/rootfs/app/gitops_bridge/yaml_modules.py:3438-3454 | a package move that succeeds had a non-blank package name other than `unassigned`, a kind with a package file, and gives that file inside `packages/<name>` |
| CrudPaths.OneOffDestination | homeassistant_gitops/rootfs/app/gitops_bridge/yaml_modules.py:3455-3463 | a one-off move that succeeds had a string file name passing the YAML file-name check and a kind with a module folder, and gives that file in the folder; a name that is present but not a string: see Left out |
| CrudPaths.PackageFileContext | homeassistant_gitops/rootfs/app/gitops_bridge/yaml_modules.py:3652-3660 | a package file of a browsable domain is classified back as that domain's kind |
| CrudPaths.FolderFileContext | homeassistant_gitops/rootfs/app/gitops_bridge/yaml_modules.py:3662-3673 | a file in a browsable domain's module folder is classified back as that domain's kind |
| CrudPaths.ResolveDestinationPathSafe | homeassistant_gitops/rootfs/app/gitops_bridge/yaml_modules.py:3438-3454 | whatever the corrected resolution accepts, it resolves exactly as `_resolve_destination_path` does |
| CrudPaths.SafeRefusesName | homeassistant_gitops/rootfs/app/gitops_bridge/yaml_modules.py:3438-3454 | the corrected resolution refuses a move whose package name is not a plain folder name, with "Package name must be a folder name inside packages." |
| CrudPaths.OneOffSegment | homeassistant_gitops/rootfs/app/gitops_bridge/yaml_modules.py:3405-3415 | an accepted one-off file name is never `.` or `..` |
| CrudPaths.RegistryNames | homeassistant_gitops/rootfs/app/gitops_bridge/yaml_modules.py:3631-3642 | every registered folder and package file name is a plain name |
| CrudPaths.SafeDestinationInside | homeassistant_gitops/rootfs/app/gitops_bridge/yaml_modules.py:3418-3464 | with the corrected package check every destination lies inside the config directory, even with `..` resolved |
| CrudPaths.UnassignInside | homeassistant_gitops/rootfs/app/gitops_bridge/yaml_modules.py:305-314 | the unassigned module path of a registered domain lies inside the config directory |
| CrudPaths.PackageInside | homeassistant_gitops/rootfs/app/gitops_bridge/yaml_modules.py:3446-3454 | a plain package name gives a destination inside the config directory |
| CrudPaths.OneOffInside | homeassistant_gitops/rootfs/app/gitops_bridge/yaml_modules.py:3455-3463 | a one-off destination lies inside the config directory |
| CrudPaths.PackageNameEscapes | homeassistant_gitops/rootfs/app/gitops_bridge/yaml_modules.py:3438-3454 | as written, the package name `../..` is accepted and the automation destination resolves to `/automation.yaml`, outside the config directory; the corrected resolution refuses it |
| CrudPaths.DestinationKeepsKind | homeassistant_gitops/rootfs/app/gitops_bridge/yaml_modules.py:3418-3464 | every destination of an unassign or a move is a file the module browser classifies as the same domain, so moved items land in a file of their own kind |
| CrudPaths.UnassignKind | homeassistant_gitops/rootfs/app/gitops_bridge/yaml_modules.py:305-314 | the unassigned file of a browsable domain is classified as that domain |
| CrudPaths.PackageKind | homeassistant_gitops/rootfs/app/gitops_bridge/yaml_modules.py:3446-3454 | a package destination of a browsable domain is classified as that domain |
| CrudPaths.OneOffKind | homeassistant_gitops/rootfs/app/gitops_bridge/yaml_modules.py:3455-3463 | a one-off destination of a browsable domain is classified as that domain |
| CrudPaths.FolderHoldsSpec | homeassistant_gitops/rootfs/app/gitops_bridge/yaml_modules.py:305-314 | the unassigned path of a registered domain's folder is `packages/unassigned/<package filename>` |
| Exports.NormalizedBlacklist | homeassistant_gitops/rootfs/app/gitops_bridge/exports.py:78-90 | the blacklist is accepted exactly when it is None or a list of strings, with the source's message otherwise; the result is stripped, lower-cased, without blanks or repeats, and sorted |
| Exports.NormalizeBlacklist | homeassistant_gitops/rootfs/app/gitops_bridge/exports.py:78-90 | the imperative loop computes `NormalizedBlacklist` |
| Exports.BlacklistMembers | homeassistant_gitops/rootfs/app/gitops_bridge/exports.py:83-90 | an integration is blacklisted exactly when it is the non-empty normalisation of some entry |
| Exports.NormalizedExportsConfig | homeassistant_gitops/rootfs/app/gitops_bridge/exports.py:93-109 | None gives the default; a non-map, a schema version other than 1 or an `entities` section that is not a map (None aside) is refused with the source's message; otherwise the result is accepted exactly when the blacklist is |
| Exports.ExportsConfigRoundTrip | homeassistant_gitops/rootfs/app/gitops_bridge/exports.py:93-109 | a normalised config written out and normalised again is unchanged |
| Exports.LoadExportsConfig | homeassistant_gitops/rootfs/app/gitops_bridge/exports.py:112-119 | a missing or blank file gives the default, an unparsable one is refused with the parser's message |
| Exports.SaveExportsConfig | homeassistant_gitops/rootfs/app/gitops_bridge/exports.py:122-126 | saving succeeds exactly when the payload normalises, returns the normalised config, and loading the written file gives it back |
| Exports.LoadBlacklistNormal | homeassistant_gitops/rootfs/app/gitops_bridge/exports.py:253-258 | the blacklist set read back holds exactly the stored integrations |
| Exports.StripLowerEmpty | homeassistant_gitops/rootfs/app/gitops_bridge/exports.py:258 | a string strips to nothing exactly when its lower-cased strip is empty |
| Exports.FormatCell | homeassistant_gitops/rootfs/app/gitops_bridge/exports.py:163-168 | None is empty, booleans are `true`/`false`, strings are themselves and integers their digits |
| Exports.FormatCellEmpty | homeassistant_gitops/rootfs/app/gitops_bridge/exports.py:163-168 | a cell is empty exactly for None and the empty string |
| Exports.EntityDomain | homeassistant_gitops/rootfs/app/gitops_bridge/exports.py:234-237 | the domain holds no `.`; it is "" without a `.`, and otherwise the text before the first one |
| Exports.EntityDomainOf | homeassistant_gitops/rootfs/app/gitops_bridge/exports.py:234-237 | the domain of `domain.object` is `domain`, whatever follows |
| Exports.IntegrationName | homeassistant_gitops/rootfs/app/gitops_bridge/exports.py:240-250 | the non-empty `platform` string, else the non-empty `integration` string, else the domain of a string `entity_id`, else "" |
| Exports.DisplayText | homeassistant_gitops/rootfs/app/gitops_bridge/exports.py:223-224 | a falsy name is "", a string name is itself |
| Exports.DeviceDisplayName | homeassistant_gitops/rootfs/app/gitops_bridge/exports.py:220-224 | no device is ""; otherwise the user's name for it when set, else its own name |
| Exports.AreaName | homeassistant_gitops/rootfs/app/gitops_bridge/exports.py:227-231 | no area is ""; otherwise its name |
| Exports.UnitOfMeasurement | homeassistant_gitops/rootfs/app/gitops_bridge/exports.py:261-270 | a non-empty top-level string, else a non-empty string under `capabilities`, else "" |
| Exports.IndexByLast | homeassistant_gitops/rootfs/app/gitops_bridge/exports.py:279-288 | the entry indexed under a key is the last one whose id is that string |
| Exports.IndexByAbsent | homeassistant_gitops/rootfs/app/gitops_bridge/exports.py:279-288 | a key no entry carries is not indexed |
| Exports.Find | homeassistant_gitops/rootfs/app/gitops_bridge/exports.py:300 | a lookup finds something exactly when the key is non-empty and indexed, and then the indexed entry |
| Exports.EntityRowFor | homeassistant_gitops/rootfs/app/gitops_bridge/exports.py:291-323 | an entry gets a row exactly when it has a non-empty string `entity_id` and its integration is not blacklisted; the row carries that id, its integration and domain, the area of the entry or else of its device, and that area's name |
| Exports.ExportedEntityRows | homeassistant_gitops/rootfs/app/gitops_bridge/exports.py:290-325 | the rows of `entities.csv` are a permutation of the entries' rows, sorted by entity id |
| Exports.ExportEntities | homeassistant_gitops/rootfs/app/gitops_bridge/exports.py:290-325 | the imperative loop and sort compute `ExportedEntityRows` |
| Exports.ExportedEntityMembers | homeassistant_gitops/rootfs/app/gitops_bridge/exports.py:290-325 | a row is exported exactly when it is the row of some entry, and no exported row is blacklisted or without an id |
| Exports.AreaFallback | homeassistant_gitops/rootfs/app/gitops_bridge/exports.py:301-303 | an entry without an area of its own takes the area of its device |
| Exports.GroupMembers | homeassistant_gitops/rootfs/app/gitops_bridge/exports.py:395-401 | the members are sorted, without repeats, and exactly the non-empty strips of the string entries |
| Exports.GroupMembersMembers | homeassistant_gitops/rootfs/app/gitops_bridge/exports.py:395-401 | a member is listed exactly when it is the non-empty strip of some string entry |
| Exports.GroupRowFor | homeassistant_gitops/rootfs/app/gitops_bridge/exports.py:382-409 | a state gets a row exactly when its `entity_id` is a string with a `.` in a group-like domain and `attributes.entity_id` is a list; the row carries that id |
| Exports.GroupMembersSplit | homeassistant_gitops/rootfs/app/gitops_bridge/exports.py:406 | when no member holds `;`, the `members` cell splits back into the members |
| Exports.ExportedGroupRows | homeassistant_gitops/rootfs/app/gitops_bridge/exports.py:381-411 | the rows of `groups.csv` are a permutation of the states' rows, sorted by entity id |
| Exports.ExportGroups | homeassistant_gitops/rootfs/app/gitops_bridge/exports.py:381-411 | the imperative loop and sort compute `ExportedGroupRows` |
| Exports.ExportedGroupMembers | homeassistant_gitops/rootfs/app/gitops_bridge/exports.py:381-411 | a row is exported exactly when it is the row of some state, and only group-like entities appear |
| Fingerprints.KeptKeys | homeassistant_gitops/rootfs/app/gitops_bridge/yaml_modules.py:415-420 | the keys `_normalize_value` keeps are the dict's keys outside the excluded set, each once, in sorted order |
| Fingerprints.NormalizeMap | homeassistant_gitops/rootfs/app/gitops_bridge/yaml_modules.py:415-420 | a normalised dict has one entry per kept key, in sorted order, holding that key's value normalised |
| Fingerprints.NormalizeCanonical | homeassistant_gitops/rootfs/app/gitops_bridge/yaml_modules.py:409-423 | normalising always yields a value in normal form: sorted distinct keys, tagged nodes written as `__tag__`/`__value__` dicts |
| Fingerprints.CanonicalFixed | homeassistant_gitops/rootfs/app/gitops_bridge/yaml_modules.py:409-423 | a value in normal form is its own normalisation |
| Fingerprints.NormalizeIdempotent | homeassistant_gitops/rootfs/app/gitops_bridge/yaml_modules.py:409-423 | normalising a normalised value changes nothing |
| Fingerprints.NormalizeDropsExcluded | homeassistant_gitops/rootfs/app/gitops_bridge/yaml_modules.py:409-423 | the excluded keys are gone at every depth of the normalised value |
| Fingerprints.SameOutsideNormalize | homeassistant_gitops/rootfs/app/gitops_bridge/yaml_modules.py:409-435 | trees that agree outside the excluded keys, in any key order, normalise alike and so share a fingerprint |
| Fingerprints.SameOutsideRefl | homeassistant_gitops/rootfs/app/gitops_bridge/yaml_modules.py:409-423 | every tree without repeated keys agrees with itself outside any key set |
| Fingerprints.KeyOrderIrrelevant | homeassistant_gitops/rootfs/app/gitops_bridge/yaml_modules.py:426-435 | reordering a dict's entries never changes its fingerprint |
| Fingerprints.PutExcludedIrrelevant | homeassistant_gitops/rootfs/app/gitops_bridge/yaml_modules.py:426-435 | setting an excluded key (a list domain's id field, say) never changes the fingerprint |
| Fingerprints.RemoveExcludedIrrelevant | homeassistant_gitops/rootfs/app/gitops_bridge/yaml_modules.py:426-435 | removing an excluded key never changes the fingerprint |
| Fingerprints.NormalizeSeesKeptKey | homeassistant_gitops/rootfs/app/gitops_bridge/yaml_modules.py:409-423 | the converse at one dict: dicts that normalise alike hold the same kept keys, and each kept key's values normalise alike |
| Fingerprints.PutKeptSeen | homeassistant_gitops/rootfs/app/gitops_bridge/yaml_modules.py:409-435 | setting a key outside the excluded set leaves the normal form unchanged exactly when the key was already there with a value that normalises alike |
| ItemIds.ItemName | homeassistant_gitops/rootfs/app/gitops_bridge/yaml_modules.py:636-642 | `_item_name` is the first of `alias`, `name`, `title` holding a non-blank string, stripped; none exactly when none of them does |
| ItemIds.ExtractItemId | homeassistant_gitops/rootfs/app/gitops_bridge/yaml_modules.py:654-660 | `_extract_item_id` gives an id exactly when the id field is set, the value is a dict and the field holds a non-null value; a string id is returned as it is |
| ItemIds.SyntheticId | homeassistant_gitops/rootfs/app/gitops_bridge/yaml_modules.py:663-666 | `_synthetic_id` is `path:line` for a known positive line and `path:position` (1-based) otherwise |
| ItemIds.SyntheticIdInjective | homeassistant_gitops/rootfs/app/gitops_bridge/yaml_modules.py:663-666 | items of one file without line numbers get distinct synthetic ids |
| ItemIds.CamelSplit | homeassistant_gitops/rootfs/app/gitops_bridge/yaml_modules.py:680-698 | the camel-case split only inserts `_` and leaves text without capitals alone |
| ItemIds.Underscored | homeassistant_gitops/rootfs/app/gitops_bridge/yaml_modules.py:698-700 | after the split, lower-casing and the non-alphanumeric substitution, only `[a-z0-9]` and single `_` remain |
| ItemIds.NormalizeAutomationId | homeassistant_gitops/rootfs/app/gitops_bridge/yaml_modules.py:685-702 | `_normalize_automation_id` yields only safe ids: non-empty, `[a-z0-9_]`, no doubled and no edge `_` |
| ItemIds.UnderscoredSafe | homeassistant_gitops/rootfs/app/gitops_bridge/yaml_modules.py:700-702 | collapsing `_` runs changes nothing more, and trimming `_` leaves a safe id |
| ItemIds.UnderscoredIdChars | homeassistant_gitops/rootfs/app/gitops_bridge/yaml_modules.py:698-700 | a letter or digit of the stripped alias comes out lower-cased; nothing else produces `[a-z0-9]` |
| ItemIds.NormalizeNoneIff | homeassistant_gitops/rootfs/app/gitops_bridge/yaml_modules.py:685-702 | no id can be derived exactly when the alias holds no ASCII letter or digit |
| ItemIds.NormalizeSafeFixed | homeassistant_gitops/rootfs/app/gitops_bridge/yaml_modules.py:685-702 | a safe id is its own normalisation |
| ItemIds.NormalizeIdempotent | homeassistant_gitops/rootfs/app/gitops_bridge/yaml_modules.py:685-702 | normalising a normalised alias gives it back |
| ItemIds.AutomationAliasId | homeassistant_gitops/rootfs/app/gitops_bridge/yaml_modules.py:645-651 | `_automation_alias_id` gives a safe id exactly when the value is a dict whose `alias` is a string holding a letter or digit |
| ItemIds.AugmentedInjective | homeassistant_gitops/rootfs/app/gitops_bridge/yaml_modules.py:669-677 | different suffixes give different `candidate_N` ids |
| ItemIds.TakenBound | homeassistant_gitops/rootfs/app/gitops_bridge/yaml_modules.py:672-677 | the counting loop cannot pass more suffixes than there are used ids, so it terminates |
| ItemIds.FirstFree | homeassistant_gitops/rootfs/app/gitops_bridge/yaml_modules.py:672-677 | the suffix found is the least one from the start whose id is free |
| ItemIds.UniqueId | homeassistant_gitops/rootfs/app/gitops_bridge/yaml_modules.py:669-677 | `_ensure_unique_id` returns an id that is not used: the candidate when it is free, else `candidate_N` for the least free `N >= 2` |
| ItemIds.UniqueIdLeast | homeassistant_gitops/rootfs/app/gitops_bridge/yaml_modules.py:672-677 | any free suffix is at least the one chosen |
| ItemIds.EnsureUniqueId | homeassistant_gitops/rootfs/app/gitops_bridge/yaml_modules.py:669-677 | the `while True` loop returns exactly `UniqueId`; the fingerprint argument is unused, as in the source |
| ItemIds.SecondKitchenLights | homeassistant_gitops/rootfs/app/gitops_bridge/yaml_modules.py:669-677 | the second automation whose alias gives the taken id `kitchen_lights` gets `kitchen_lights_2` |
| ItemIds.PathChars | homeassistant_gitops/rootfs/app/gitops_bridge/yaml_modules.py:707 | every character is kept lower-cased when alphanumeric, `-` or `_`, and turned into `-` otherwise |
| ItemIds.SanitizeLovelacePath | homeassistant_gitops/rootfs/app/gitops_bridge/yaml_modules.py:705-709 | `_sanitize_lovelace_path` returns a non-empty path of `[a-z0-9_-]` that neither starts nor ends with `-` |
| ItemIds.TrimDashes | homeassistant_gitops/rootfs/app/gitops_bridge/yaml_modules.py:708-709 | `.strip("-") or "view"` gives a non-empty path without edge dashes |
| ItemIds.SanitizeFixed | homeassistant_gitops/rootfs/app/gitops_bridge/yaml_modules.py:705-709 | a path that is already sanitised is kept as it is |
| ItemIds.SanitizeLovelaceIdempotent | homeassistant_gitops/rootfs/app/gitops_bridge/yaml_modules.py:705-709 | sanitising a sanitised path changes nothing |
| GitOps.NormalizeRepoPath | homeassistant_gitops/rootfs/app/gitops_bridge/git_ops.py:85-95 | an accepted path is a non-blank relative string without `..`; a blank or non-string path is refused with "Path required" |
| GitOps.NormalizeRepoPathAccepts | homeassistant_gitops/rootfs/app/gitops_bridge/git_ops.py:85-95 | below a resolved root a path is accepted exactly when it is a non-blank relative string without `..`, and comes back as its own parts joined by `/` |
| GitOps.StatusField | homeassistant_gitops/rootfs/app/gitops_bridge/git_ops.py:107 | `entry[:2]` is at most two characters |
| GitOps.MakeChange | homeassistant_gitops/rootfs/app/gitops_bridge/git_ops.py:107-138 | a one-letter status fails on its missing second letter; `!!` is ignored and `??` untracked, neither staged nor unstaged; otherwise X and Y are staged and unstaged unless blank or `?`; a trailing `/` marks a directory |
| GitOps.Cons | homeassistant_gitops/rootfs/app/gitops_bridge/git_ops.py:127-138 | a change in front of the rest, failing when either fails |
| GitOps.Prepend | homeassistant_gitops/rootfs/app/gitops_bridge/git_ops.py:127-138 | changes already collected in front of the rest, failing when the rest fails |
| GitOps.StatusOf | homeassistant_gitops/rootfs/app/gitops_bridge/git_ops.py:98-140 | the records give at most one change each |
| GitOps.ParseStatusEntries | homeassistant_gitops/rootfs/app/gitops_bridge/git_ops.py:98-140 | the imperative index-advancing loop computes `StatusOf` on the NUL-separated records |
| GitOps.StatusPlainRecords | homeassistant_gitops/rootfs/app/gitops_bridge/git_ops.py:98-140 | without renames every non-empty record gives exactly one change, in order, with its first two characters as status and the text from index 3 as path |
| GitOps.StatusRename | homeassistant_gitops/rootfs/app/gitops_bridge/git_ops.py:110-119 | a rename or copy record followed by a record gives one change whose path is the following record, trailing `/` removed, and whose `rename_from` is the record's own path |
| GitOps.StatusRenameAtEnd | homeassistant_gitops/rootfs/app/gitops_bridge/git_ops.py:112-114 | a rename or copy record as the last record ends parsing with nothing more |
| GitOps.StatusShortRecordFails | homeassistant_gitops/rootfs/app/gitops_bridge/git_ops.py:107-126 | a one-letter status other than a rename makes the parse fail |
| GitOps.TruncateDiff | homeassistant_gitops/rootfs/app/gitops_bridge/git_ops.py:412-420 | an untruncated diff is returned whole; it is truncated exactly when a positive limit is below its line count; the total is the newline count without a positive limit and the line count with one |
| GitOps.TruncateKeepsFirstLines | homeassistant_gitops/rootfs/app/gitops_bridge/git_ops.py:416-420 | a truncated diff is exactly the first `max_lines` lines of the diff |
| GitOps.TruncateIdempotent | homeassistant_gitops/rootfs/app/gitops_bridge/git_ops.py:412-420 | truncating a truncated diff again with the same limit changes nothing |
| GitOps.ParseIgnoreLine | homeassistant_gitops/rootfs/app/gitops_bridge/git_ops.py:285-288 | a line without a tab is all source block, and its match is the queried path |
| GitOps.ParseSourceBlock | homeassistant_gitops/rootfs/app/gitops_bridge/git_ops.py:289-292 | a block with fewer than two colons leaves source and pattern empty and no line; otherwise the source holds no colon |
| GitOps.CheckIgnore | homeassistant_gitops/rootfs/app/gitops_bridge/git_ops.py:276-300 | a failed command or blank output means not ignored; the result always names the queried path |
| GitOps.CheckIgnoreRoundTrip | homeassistant_gitops/rootfs/app/gitops_bridge/git_ops.py:276-300 | a well-formed `source:line:pattern<TAB>match` report reads back as its source, line number, pattern and match |
| GitOps.CommitLine | homeassistant_gitops/rootfs/app/gitops_bridge/git_ops.py:448-457 | a line's status and path hold no tab, and it has a `rename_from` exactly when its status starts with `R` or `C` |
| GitOps.CommitChangesOf | homeassistant_gitops/rootfs/app/gitops_bridge/git_ops.py:447-457 | the lines give at most one change each |
| GitOps.GitCommitChanges | homeassistant_gitops/rootfs/app/gitops_bridge/git_ops.py:442-458 | a failed command gives no changes, and otherwise the imperative loop computes `CommitChangesOf` on the output's lines |
| GitOps.CommitLineRoundTrip | homeassistant_gitops/rootfs/app/gitops_bridge/git_ops.py:448-457 | every printable change is read back from the line git prints for it |
| GitOps.CommitChangesRoundTrip | homeassistant_gitops/rootfs/app/gitops_bridge/git_ops.py:447-457 | the changes of a list of printed lines are the printed changes |
| GitOps.CommitOutputRoundTrip | homeassistant_gitops/rootfs/app/gitops_bridge/git_ops.py:442-458 | the whole output of `git diff-tree --name-status` for one-line changes is read back as exactly those changes |
| GitOps.ParseListMode | homeassistant_gitops/rootfs/app/gitops_bridge/git_ops.py:210-212 | no mode or an empty one is `changed`; otherwise the mode, lower-cased, must be `changed` or `all` |
| GitOps.FromChange | homeassistant_gitops/rootfs/app/gitops_bridge/git_ops.py:262-271 | a row carries every field of its change, and is clean exactly when no flag is set |
| GitOps.TrackedEntry | homeassistant_gitops/rootfs/app/gitops_bridge/git_ops.py:232-243 | a tracked file without a change is a clean row with no flag set |
| GitOps.ChangedFilesOf | homeassistant_gitops/rootfs/app/gitops_bridge/git_ops.py:214-227 | mode `changed` lists at most the changes, each clean exactly when no flag is set, and no ignored one unless asked |
| GitOps.ListChangedFiles | homeassistant_gitops/rootfs/app/gitops_bridge/git_ops.py:214-227 | the imperative `changed` loop computes `ChangedFilesOf` |
| GitOps.TrackedMap | homeassistant_gitops/rootfs/app/gitops_bridge/git_ops.py:231-243 | after the tracked paths the dict holds exactly those paths, each a clean row |
| GitOps.ApplyChanges | homeassistant_gitops/rootfs/app/gitops_bridge/git_ops.py:245-271 | after the changes the dict holds exactly the tracked paths and the listed changes' paths |
| GitOps.ListedPathsHas | homeassistant_gitops/rootfs/app/gitops_bridge/git_ops.py:245-247 | a path is listed exactly when some change that is not a skipped ignored one has it |
| GitOps.AllKeys | homeassistant_gitops/rootfs/app/gitops_bridge/git_ops.py:273 | the sorted path list holds exactly the keys of the dict |
| GitOps.ApplyChangesPaths | homeassistant_gitops/rootfs/app/gitops_bridge/git_ops.py:248-261 | every row of the dict is filed under its own path |
| GitOps.ApplyChangesClean | homeassistant_gitops/rootfs/app/gitops_bridge/git_ops.py:269-271 | every row of the dict is clean exactly when no flag is set |
| GitOps.ApplyChangesUntouched | homeassistant_gitops/rootfs/app/gitops_bridge/git_ops.py:245-271 | a path no listed change touches keeps its row |
| GitOps.ApplyChangesLastWins | homeassistant_gitops/rootfs/app/gitops_bridge/git_ops.py:262-271 | the last listed change of a path decides its row |
| GitOps.AllFilesRows | homeassistant_gitops/rootfs/app/gitops_bridge/git_ops.py:273 | the rows of mode `all` are the dict's rows, in the order of the sorted paths |
| GitOps.AllFilesSorted | homeassistant_gitops/rootfs/app/gitops_bridge/git_ops.py:229-273 | mode `all` lists every tracked path and every listed change's path, each once, sorted |
| GitOps.AllFilesClean | homeassistant_gitops/rootfs/app/gitops_bridge/git_ops.py:229-273 | every row of mode `all` is clean exactly when none of its flags is set |
| GitOps.AllFilesTrackedClean | homeassistant_gitops/rootfs/app/gitops_bridge/git_ops.py:229-273 | in mode `all` a tracked file without a listed change is a clean row with a blank status |
| GitOps.AllFilesChanged | homeassistant_gitops/rootfs/app/gitops_bridge/git_ops.py:229-273 | in mode `all` a path with listed changes has the row of its last listed change |
| GitOps.ListAllFiles | homeassistant_gitops/rootfs/app/gitops_bridge/git_ops.py:229-273 | the imperative `all` branch computes `AllFilesOf` |
| GitOps.TrackFiles | homeassistant_gitops/rootfs/app/gitops_bridge/git_ops.py:232-243 | the imperative loop over the tracked paths computes `TrackedMap` |
| GitOps.OverlayChanges | homeassistant_gitops/rootfs/app/gitops_bridge/git_ops.py:245-271 | the imperative loop over the changes computes `ApplyChanges` |
| GitOps.GitListFiles | homeassistant_gitops/rootfs/app/gitops_bridge/git_ops.py:209-273 | an unknown mode is refused with "Invalid file list mode"; `changed` gives `ChangedFilesOf` and `all` gives `AllFilesOf` of the tracked paths |
| GitignoreOps.ParseLine | homeassistant_gitops/rootfs/app/gitops_bridge/gitignore_ops.py:28-40 | blank lines, `#` comments and a bare `!` give nothing; a leading `!` negates; the rest is the pattern |
| GitignoreOps.MakePattern | homeassistant_gitops/rootfs/app/gitops_bridge/gitignore_ops.py:36-40 | a trailing `/` marks a directory pattern and is removed; the glob and path flags are read from what remains |
| GitignoreOps.EntryBlank | homeassistant_gitops/rootfs/app/gitops_bridge/gitignore_ops.py:31-35 | after a leading `!` nothing is left exactly when the `!` was the whole stripped line |
| GitignoreOps.ParsePatterns | homeassistant_gitops/rootfs/app/gitops_bridge/gitignore_ops.py:27-40 | the lines give at most one pattern each |
| GitignoreOps.LoadGitignorePatterns | homeassistant_gitops/rootfs/app/gitops_bridge/gitignore_ops.py:22-41 | no `.gitignore` gives no patterns; otherwise the imperative loop computes `ParsePatterns` on its lines |
| GitignoreOps.LastMatchWins | homeassistant_gitops/rootfs/app/gitops_bridge/gitignore_ops.py:79-90 | the last matching pattern decides: a path is ignored exactly when the last pattern that matches it is not negated |
| GitignoreOps.ShouldIgnore | homeassistant_gitops/rootfs/app/gitops_bridge/gitignore_ops.py:76-95 | a path is ignored exactly when the patterns ignore it or its extension is not watched |
| GitignoreOps.TemplateLines | homeassistant_gitops/rootfs/app/gitops_bridge/gitignore_ops.py:14-18 | the template lines are non-empty and none is a comment |
| GitignoreOps.TemplateLinesStripped | homeassistant_gitops/rootfs/app/gitops_bridge/gitignore_ops.py:14-18 | every template line is stripped and holds no newline |
| GitignoreOps.TemplateLinesComplete | homeassistant_gitops/rootfs/app/gitops_bridge/gitignore_ops.py:14-18 | every line that is neither blank nor a comment appears, stripped, among the template lines |
| GitignoreOps.TemplateText | homeassistant_gitops/rootfs/app/gitops_bridge/gitignore_ops.py:11-19 | no template line holds a newline |
| GitignoreOps.Missing | homeassistant_gitops/rootfs/app/gitops_bridge/gitignore_ops.py:64 | the new lines are exactly the template lines the file does not have, in template order |
| GitignoreOps.AppendedLines | homeassistant_gitops/rootfs/app/gitops_bridge/gitignore_ops.py:71-73 | appending a newline, the lines joined by newlines, and a newline adds exactly those lines after the file's own |
| GitignoreOps.EnsureGitignoreComplete | homeassistant_gitops/rootfs/app/gitops_bridge/gitignore_ops.py:58-73 | after `ensure_gitignore` every template line is one of the file's stripped lines |
| GitignoreOps.EnsureLinesComplete | homeassistant_gitops/rootfs/app/gitops_bridge/gitignore_ops.py:58-73 | the same holds for any list of stripped, newline-free template lines |
| GitignoreOps.NothingMissing | homeassistant_gitops/rootfs/app/gitops_bridge/gitignore_ops.py:64-73 | a template none of whose lines is missing leaves nothing to add |
| GitignoreOps.EnsureGitignoreIdempotent | homeassistant_gitops/rootfs/app/gitops_bridge/gitignore_ops.py:58-73 | a second `ensure_gitignore` leaves the file alone |
| GitignoreOps.PatternCache.Get | homeassistant_gitops/rootfs/app/gitops_bridge/gitignore_ops.py:44-55 | a missing file gives no patterns; a cache entry with the file's mtime is returned as it is; otherwise the file is parsed and the cache updated |
| GitignoreOps.PatternCache.constructor | homeassistant_gitops/rootfs/app/gitops_bridge/gitignore_ops.py:8 | the cache starts empty |
| Groups.CleanedByMembers | homeassistant_gitops/rootfs/app/gitops_bridge/groups.py:39-45 | an id is kept exactly when it is non-empty and some string entry normalises to it |
| Groups.NormalCleaned | homeassistant_gitops/rootfs/app/gitops_bridge/groups.py:46 | sorting the distinct cleaned ids gives a stripped, lower-cased, sorted list without blanks or repeats |
| Groups.NormalizedEntityIds | homeassistant_gitops/rootfs/app/gitops_bridge/groups.py:34-46 | None is the empty list; the list is accepted exactly when it is a list of strings, with the source's message otherwise; the ids come back stripped, lower-cased, without blanks or repeats, sorted |
| Groups.NormalizeEntityIds | homeassistant_gitops/rootfs/app/gitops_bridge/groups.py:34-46 | the imperative loop computes `NormalizedEntityIds` |
| Groups.EntityIdsMembers | homeassistant_gitops/rootfs/app/gitops_bridge/groups.py:39-46 | the ids kept are exactly the non-empty normalisations of the entries |
| Groups.EntityIdsIdempotent | homeassistant_gitops/rootfs/app/gitops_bridge/groups.py:34-46 | a normalised list written back normalises to itself |
| Groups.NormalizedMembers | homeassistant_gitops/rootfs/app/gitops_bridge/groups.py:284-292 | None or a list is accepted, anything else refused with the source's message; the members come back normalised, non-strings skipped |
| Groups.MembersMembers | homeassistant_gitops/rootfs/app/gitops_bridge/groups.py:289-291 | the members kept are exactly the non-empty normalisations of the string entries |
| Groups.MembersAgreeWithEntityIds | homeassistant_gitops/rootfs/app/gitops_bridge/groups.py:34-292 | on a list of strings the two normalisers agree, although they dedupe and sort in different orders |
| Groups.NormalizedGroupsConfig | homeassistant_gitops/rootfs/app/gitops_bridge/groups.py:49-62 | None gives the default; a non-map, a schema version other than 1 or a non-map `ignored` section is refused with the source's message; an accepted ignore list is normalised |
| Groups.GroupsConfigRoundTrip | homeassistant_gitops/rootfs/app/gitops_bridge/groups.py:49-79 | saving a normalised config and loading it again gives the same config |
| Groups.LoadGroupsConfig | homeassistant_gitops/rootfs/app/gitops_bridge/groups.py:65-72 | a missing or blank file gives the default, and a loaded config's ignore list is normalised |
| Groups.Without | homeassistant_gitops/rootfs/app/gitops_bridge/groups.py:544 | `discard` leaves exactly the other ids |
| Groups.SetGroupIgnored | homeassistant_gitops/rootfs/app/gitops_bridge/groups.py:531-547 | the payload must be a map with an `entity_id` string holding a `.`; the stored list gains or loses exactly that id, normalised, stays normalised and loads back as saved |
| Groups.UpdatedIgnored | homeassistant_gitops/rootfs/app/gitops_bridge/groups.py:539-545 | adding or discarding the id on a normalised config keeps it normalised, changes only that id, and loads back as saved |
| Groups.NormalizedRestartState | homeassistant_gitops/rootfs/app/gitops_bridge/groups.py:90-102 | None gives empty hashes; a non-map or a schema version other than 1 is refused with the source's message; otherwise each hash is `str(value)` when truthy and "" else |
| Groups.RestartStateRoundTrip | homeassistant_gitops/rootfs/app/gitops_bridge/groups.py:90-145 | a saved restart state loads back unchanged |
| Groups.RestartStore.constructor | homeassistant_gitops/rootfs/app/gitops_bridge/groups.py:133-140 | the store starts from the restart-state file as given |
| Groups.RestartStore.Status | homeassistant_gitops/rootfs/app/gitops_bridge/groups.py:148-164 | a load error is passed on and nothing written; otherwise the current hash is stored as the last change (written only when it differs), and a restart is needed exactly when the hash is non-empty and differs from the ack |
| Groups.RestartStore.Ack | homeassistant_gitops/rootfs/app/gitops_bridge/groups.py:167-176 | both stored hashes become the current one, and no restart is reported |
| Groups.AckThenStatus | homeassistant_gitops/rootfs/app/gitops_bridge/groups.py:148-176 | after an acknowledgement a restart is reported exactly when the group files' hash is non-empty and differs from the acknowledged one |
| Groups.NormalizedObjectId | homeassistant_gitops/rootfs/app/gitops_bridge/groups.py:273-281 | an accepted id is the string stripped and lower-cased, non-empty, of letters, digits and `_`; a non-string and a blank string are refused with the source's messages |
| Groups.ObjectIdIdempotent | homeassistant_gitops/rootfs/app/gitops_bridge/groups.py:273-281 | an accepted object id is accepted again unchanged |
| Groups.EnsureYamlFilename | homeassistant_gitops/rootfs/app/gitops_bridge/groups.py:295-307 | an accepted name is the stripped string, or it with `.yaml` appended when it had no `.`; it is non-empty, holds no `/` or backslash, and ends in `.yaml` or `.yml` in any case; a non-string is refused with the source's message |
| Groups.YamlFilenameIdempotent | homeassistant_gitops/rootfs/app/gitops_bridge/groups.py:295-307 | an accepted file name is accepted again unchanged |
| Groups.AcceptedFilename | homeassistant_gitops/rootfs/app/gitops_bridge/groups.py:295-307 | a stripped plain file name with a `.` and a YAML suffix is accepted as it is |
| Groups.GroupsYamlConfigurationStatus | homeassistant_gitops/rootfs/app/gitops_bridge/groups.py:240-270 | the configuration is reported as loading groups exactly when `configuration.yaml` exists, parses to a map and its `group` is `!include groups.yaml` (or `.yml`), and its warning is empty exactly then; a missing file warns "configuration.yaml not found. …" and a parse error embeds `configuration.yaml: <message>` as `yaml_load` words it |
| ItemAppend.TargetCandidate | homeassistant_gitops/rootfs/app/gitops_bridge/yaml_modules.py:3283-3290 | the id offered to an item without one is never empty: an automation's alias-based id when it has one, otherwise the synthetic id of its position in the destination (sanitised for lovelace) |
| ItemAppend.FreshTargetId | homeassistant_gitops/rootfs/app/gitops_bridge/yaml_modules.py:3291-3292 | `_ensure_unique_id` on the candidate gives a non-empty id that is not taken yet |
| ItemAppend.PrepareShape | homeassistant_gitops/rootfs/app/gitops_bridge/yaml_modules.py:3273-3298 | preparing an item is refused exactly when its own id is already taken in the destination; otherwise every other key is copied, an own id is kept, a domain that writes ids gives the item a fresh one, and the settled id joins the ids taken |
| ItemAppend.EntryIdSettled | homeassistant_gitops/rootfs/app/gitops_bridge/yaml_modules.py:3314-3317 | an entry's id as `used_ids` collects it is the id the entry settles on, up to an empty id |
| ItemAppend.AppendOneShape | homeassistant_gitops/rootfs/app/gitops_bridge/yaml_modules.py:3318-3323 | one turn of the append loop appends one entry carrying the item's data, and its settled id, when it has one, is new and joins the ids taken |
| ItemAppend.AppendAllFails | homeassistant_gitops/rootfs/app/gitops_bridge/yaml_modules.py:3318-3323 | once an item is refused, the whole append fails with that refusal |
| ItemAppend.AppendAllShape | homeassistant_gitops/rootfs/app/gitops_bridge/yaml_modules.py:3318-3323 | a successful append loop keeps the destination's entries in front, followed by one entry per item, in order, each carrying its item's data |
| ItemAppend.AppendAllFresh | homeassistant_gitops/rootfs/app/gitops_bridge/yaml_modules.py:3318-3323 | every id a successful append loop settles is new: neither among the ids taken at the start nor the id of an earlier entry |
| ItemAppend.AppendedShape | homeassistant_gitops/rootfs/app/gitops_bridge/yaml_modules.py:3301-3324 | appending to a list keeps the existing entries as a prefix and then one entry per item carrying its data; no item's own id was taken in the destination; every settled id differs from all ids before it |
| ItemAppend.ListAppend | homeassistant_gitops/rootfs/app/gitops_bridge/yaml_modules.py:3301-3324 | a load error is raised as `yaml_load` words it, `<rel>: <message>`; a missing or blank file is an empty list; a non-list document is "Destination file is not a list."; a list goes through `Appended` |
| ItemAppend.CollectIds | homeassistant_gitops/rootfs/app/gitops_bridge/yaml_modules.py:3313-3317 | the loop collecting `used_ids` gathers exactly the string forms of the entries' (non-null) ids |
| ItemAppend.RunSteps | homeassistant_gitops/rootfs/app/gitops_bridge/yaml_modules.py:3318-3323 | the append loop returns exactly what the fold `AppendAll` specifies, stopping at the first refusal |
| ItemAppend.AppendEntries | homeassistant_gitops/rootfs/app/gitops_bridge/yaml_modules.py:3313-3323 | the id collection followed by the append loop returns exactly `Appended` |
| ItemAppend.AppendItemsToListFile | homeassistant_gitops/rootfs/app/gitops_bridge/yaml_modules.py:3301-3324 | the method returns exactly what `ListAppend` specifies, including the `<rel>: <message>` load error |
| ItemAppend.LovelaceAppend | homeassistant_gitops/rootfs/app/gitops_bridge/yaml_modules.py:3369-3403 | `_append_items_to_lovelace_file`: load errors as `<rel>: <message>`, "Lovelace views are not a list." and "Destination file is not a valid lovelace module." as in the source; a list-shaped module becomes the appended list |
| ItemAppend.LovelaceAppendKeepsMeta | homeassistant_gitops/rootfs/app/gitops_bridge/yaml_modules.py:3382-3402 | appending to a dict-shaped module writes back every key besides `views` as it was, and under `views` the old views followed by the new ones |
| ItemAppend.AppendItemsToLovelaceFile | homeassistant_gitops/rootfs/app/gitops_bridge/yaml_modules.py:3369-3403 | the method returns exactly what `LovelaceAppend` specifies, including the `<rel>: <message>` load error |
| ItemAppend.ItemKey | homeassistant_gitops/rootfs/app/gitops_bridge/yaml_modules.py:3336 | `item.get("key") or item.get("id")` is, when present, a non-empty key |
| ItemAppend.FoldItemsFails | homeassistant_gitops/rootfs/app/gitops_bridge/yaml_modules.py:3335-3341 | once an item is refused, the loop fails with that refusal |
| ItemAppend.KeyedPairsHas | homeassistant_gitops/rootfs/app/gitops_bridge/yaml_modules.py:3335-3341 | the items add exactly the keys they carry |
| ItemAppend.FreshKeysStep | homeassistant_gitops/rootfs/app/gitops_bridge/yaml_modules.py:3337-3340 | the keys are fresh for all items exactly when they are for all but the last and the last one's key is neither in the destination nor added before |
| ItemAppend.MapAppendAllShape | homeassistant_gitops/rootfs/app/gitops_bridge/yaml_modules.py:3335-3341 | appending to a mapping file succeeds exactly when every item has a key that neither the destination nor an earlier item has; the result is the destination's entries followed by each item's data under its key |
| ItemAppend.AppendItemsToMappingFile | homeassistant_gitops/rootfs/app/gitops_bridge/yaml_modules.py:3327-3342 | the method returns exactly what `MappingAppend` specifies: load errors as `<rel>: <message>`, "Destination file is not a map.", and the key errors of the loop |
| ItemAppend.HelperAppendOneGet | homeassistant_gitops/rootfs/app/gitops_bridge/yaml_modules.py:3354-3365 | one helper added: its type is supported, it was not in its group, the file reads its data under its type and key, and every other helper and group reads as before |
| ItemAppend.FoldTypes | homeassistant_gitops/rootfs/app/gitops_bridge/yaml_modules.py:3358-3359 | on success every item had a supported helper type |
| ItemAppend.FoldKeeps | homeassistant_gitops/rootfs/app/gitops_bridge/yaml_modules.py:3354-3365 | on success a helper no item adds reads as before |
| ItemAppend.FoldAdds | homeassistant_gitops/rootfs/app/gitops_bridge/yaml_modules.py:3354-3365 | on success every helper an item adds was absent from the destination and reads as that item's data |
| ItemAppend.FoldOthers | homeassistant_gitops/rootfs/app/gitops_bridge/yaml_modules.py:3354-3365 | on success every group no item adds to reads as before |
| ItemAppend.HelperAppendAllGet | homeassistant_gitops/rootfs/app/gitops_bridge/yaml_modules.py:3345-3366 | appending helpers: on success every item had a supported type and a key its group lacked; each added helper reads as its data; all other helpers and groups read as before |
| ItemAppend.AppendItemsToHelpersFile | homeassistant_gitops/rootfs/app/gitops_bridge/yaml_modules.py:3345-3366 | the method returns exactly what `HelpersAppend` specifies: load errors as `<rel>: <message>`, "Destination file is not a helpers map.", and the per-item errors of the loop |
| ItemRemoval.MatchesOfShape | homeassistant_gitops/rootfs/app/gitops_bridge/yaml_modules.py:2754-2760 | the matches are exactly the positions of the items the selector accepts (id and fingerprint, each only when given), in increasing order |
| ItemRemoval.Select | homeassistant_gitops/rootfs/app/gitops_bridge/yaml_modules.py:2748-2764 | a selection that succeeds returns a position inside the items and the item there; a failure is "not found" or "ambiguous" |
| ItemRemoval.SelectFound | homeassistant_gitops/rootfs/app/gitops_bridge/yaml_modules.py:2761-2762 | a successful selection picks an item the selector accepts, and no other item is accepted |
| ItemRemoval.SelectNotFound | homeassistant_gitops/rootfs/app/gitops_bridge/yaml_modules.py:2763-2764 | the selection fails with "Item not found" exactly when the selector accepts no item |
| ItemRemoval.SelectAmbiguous | homeassistant_gitops/rootfs/app/gitops_bridge/yaml_modules.py:2763-2765 | the selection fails as ambiguous exactly when the selector accepts two different items |
| ItemRemoval.SelectExactlyOne | homeassistant_gitops/rootfs/app/gitops_bridge/yaml_modules.py:2748-2764 | the selection succeeds exactly when exactly one item is accepted |
| ItemRemoval.SelectListItem | homeassistant_gitops/rootfs/app/gitops_bridge/yaml_modules.py:2748-2764 | the loop over `enumerate(items)` returns exactly what `Select` specifies |
| ItemRemoval.SelectFlexible | homeassistant_gitops/rootfs/app/gitops_bridge/yaml_modules.py:3101-3117 | `_select_list_item_flexible` returns, on success, a position inside the items and the item there |
| ItemRemoval.FlexibleFallback | homeassistant_gitops/rootfs/app/gitops_bridge/yaml_modules.py:3101-3117 | the strict selection decides unless it fails on a request that allows fingerprint-only matching; the fallback then picks the one item carrying the selector's fingerprint, and fails as "not found" without a fingerprint |
| ItemRemoval.SelectListItemFlexible | homeassistant_gitops/rootfs/app/gitops_bridge/yaml_modules.py:3101-3117 | the method returns exactly what `SelectFlexible` specifies |
| ItemRemoval.GatherEach | homeassistant_gitops/rootfs/app/gitops_bridge/yaml_modules.py:3139-3149 | the selection loop succeeds exactly when every selector's selection does, and then holds one result per selector in place (the first failure propagates, as the raised ValueError does) |
| ItemRemoval.GatherFailed | homeassistant_gitops/rootfs/app/gitops_bridge/yaml_modules.py:3139-3141 | once a selection fails, the later selectors change nothing |
| ItemRemoval.PicksEach | homeassistant_gitops/rootfs/app/gitops_bridge/yaml_modules.py:3139-3149 | the selections succeed exactly when every selector selects an item, and then each selector gets its own selection |
| ItemRemoval.KeptPositionsShape | homeassistant_gitops/rootfs/app/gitops_bridge/yaml_modules.py:3150-3151 | the positions that survive the pops are exactly those not selected, in increasing order |
| ItemRemoval.WithoutKeeps | homeassistant_gitops/rootfs/app/gitops_bridge/yaml_modules.py:3150-3151 | removing positions keeps the other entries as an ordered subsequence: the entries at the unselected positions, each once, in order |
| ItemRemoval.PopPositions | homeassistant_gitops/rootfs/app/gitops_bridge/yaml_modules.py:3150-3151 | `for idx in sorted(set(indices), reverse=True): data.pop(idx)` leaves exactly the entries at the positions not selected, in order |
| ItemRemoval.ParsedItems | homeassistant_gitops/rootfs/app/gitops_bridge/yaml_modules.py:3135-3136 | every parsed item's position lies inside the list it was parsed from |
| ItemRemoval.PicksInside | homeassistant_gitops/rootfs/app/gitops_bridge/yaml_modules.py:3139-3149 | every position a removal takes lies inside the list |
| ItemRemoval.RemovalRemovesSelected | homeassistant_gitops/rootfs/app/gitops_bridge/yaml_modules.py:3120-3152 | removing from a list fails exactly when some selector selects no single item; otherwise there is one record per selector with the chosen entry, its id, fingerprint and name, and the rest of the list keeps its order |
| ItemRemoval.EmptyRemoval | homeassistant_gitops/rootfs/app/gitops_bridge/yaml_modules.py:3127-3131 | from an empty (or missing) list nothing can be removed: no selectors succeed trivially, any selector is "not found" |
| ItemRemoval.RemoveEntries | homeassistant_gitops/rootfs/app/gitops_bridge/yaml_modules.py:3137-3152 | the selection loop followed by the pops returns exactly what `Removal` specifies, with positions taken as the items' own list positions |
| ItemRemoval.AsWrittenRemovesWrongEntry | homeassistant_gitops/rootfs/app/gitops_bridge/yaml_modules.py:3120-3152 | as written, the list `[1, {id: a}]` with a selector for `a` records and removes the entry `1` instead of `{id: a}`; taking the item's own position removes `{id: a}` |
| ItemRemoval.ParseSkipsNonMap | homeassistant_gitops/rootfs/app/gitops_bridge/yaml_modules.py:863-866 | the list `[1, {id: a}]` parses to one automation `a` whose position is 1 |
| ItemRemoval.AsWrittenLovelaceRemovesWrongView | homeassistant_gitops/rootfs/app/gitops_bridge/yaml_modules.py:3250-3266 | as written, the views `[1, {path: a}]` with a selector for `a` record and remove the view `1` instead of `{path: a}`; `LovelaceRemoval` removes `{path: a}` and keeps `[1]` |
| ItemRemoval.ParseSkipsNonMapView | homeassistant_gitops/rootfs/app/gitops_bridge/yaml_modules.py:863-866 | with the lovelace domain, the views `[1, {path: a}]` parse to one view `a` whose position is 1 |
| ItemRemoval.RemoveSecondOfTwo | homeassistant_gitops/rootfs/app/gitops_bridge/yaml_modules.py:3137-3151 | for any two-entry list whose only item sits at position 1, the position as written removes entry 0 while the item's own position removes entry 1 |
| ItemRemoval.ListRemoval | homeassistant_gitops/rootfs/app/gitops_bridge/yaml_modules.py:3120-3152 | a load error is raised as `<rel>: <message>`; a missing or blank file is an empty list; anything else that is not a list is "Module file is not a list."; a list goes through `Removal`, which removes each selected item at its own position (the source uses the parsed index, see Findings) |
| ItemRemoval.RemoveListItems | homeassistant_gitops/rootfs/app/gitops_bridge/yaml_modules.py:3120-3152 | the method returns exactly what `ListRemoval` specifies, including the `<rel>: <message>` load error and the own-position removal |
| ItemRemoval.LovelaceRemoval | homeassistant_gitops/rootfs/app/gitops_bridge/yaml_modules.py:3226-3270 | `_remove_lovelace_items`: load errors as `<rel>: <message>`, "Lovelace views are not a list." and "Module file is not a valid lovelace module."; the views go through `Removal`, which removes each selected view at its own position rather than at the parsed index the source uses (see Findings); the payload keeps the module's shape (list or dict) |
| ItemRemoval.LovelaceRemovalKeepsMeta | homeassistant_gitops/rootfs/app/gitops_bridge/yaml_modules.py:3241-3269 | removing views from a dict-shaped module writes back every key besides `views` as it was and, under `views`, the views that stay |
| ItemRemoval.RemoveLovelaceItems | homeassistant_gitops/rootfs/app/gitops_bridge/yaml_modules.py:3226-3270 | the method returns exactly what `LovelaceRemoval` specifies, including the `<rel>: <message>` load error and the own-position removal |
| ItemRemoval.DropKeysGet | homeassistant_gitops/rootfs/app/gitops_bridge/yaml_modules.py:3179-3183 | after the pops a key some selector names is gone and every other key reads as before |
| ItemRemoval.LoadedMap | homeassistant_gitops/rootfs/app/gitops_bridge/yaml_modules.py:3158-3164 | a load error is raised as `<rel>: <message>`; a missing or blank file is an empty map; a non-dict document is the given "not a map" error |
| ItemRemoval.MappingRemovalSucceeds | homeassistant_gitops/rootfs/app/gitops_bridge/yaml_modules.py:3165-3178 | removing from a mapping file fails unless every selector has a key and the file holds it; then there is one record per selector with the value under its key |
| ItemRemoval.MappingRemovalDrops | homeassistant_gitops/rootfs/app/gitops_bridge/yaml_modules.py:3179-3184 | a successful removal loses exactly the named keys; every other key reads as before |
| ItemRemoval.RemoveMappingItems | homeassistant_gitops/rootfs/app/gitops_bridge/yaml_modules.py:3155-3184 | the record loop and the pop loop return exactly what `MappingRemoval` specifies, including the `<rel>: <message>` load error |
| ItemRemoval.DropHelperGet | homeassistant_gitops/rootfs/app/gitops_bridge/yaml_modules.py:3213-3222 | one pop removes the named helper, leaves every other helper and the other keys alone, and drops a group it empties |
| ItemRemoval.DropHelpersGet | homeassistant_gitops/rootfs/app/gitops_bridge/yaml_modules.py:3213-3222 | after all pops, exactly the named helpers are gone, groups no selector names are untouched, and no group becomes empty |
| ItemRemoval.HelpersRemovalSucceeds | homeassistant_gitops/rootfs/app/gitops_bridge/yaml_modules.py:3196-3212 | removing helpers fails unless every selector has a helper type and key naming a helper in the file; then there is one record per selector with the helper's value, key and type |
| ItemRemoval.HelpersRemovalDrops | homeassistant_gitops/rootfs/app/gitops_bridge/yaml_modules.py:3187-3223 | a successful removal loses exactly the named helpers, leaves groups no selector names untouched and keeps no group it emptied |
| ItemRemoval.RemoveHelpersItems | homeassistant_gitops/rootfs/app/gitops_bridge/yaml_modules.py:3187-3223 | the record loop and the pop loop return exactly what `HelpersRemoval` specifies, including the `<rel>: <message>` load error |
| Markers.BlockLines | homeassistant_gitops/rootfs/app/gitops_bridge/yaml_modules.py:200-215 | with at least one module file there is at least one merged line (every block is four lines) |
| Markers.BlockOfFinds | homeassistant_gitops/rootfs/app/gitops_bridge/yaml_modules.py:233-239 | `blocks.get(marker)` finds a block exactly when a module file has that path, and then it is that file's block |
| Markers.UnusedMembers | homeassistant_gitops/rootfs/app/gitops_bridge/yaml_modules.py:247 | the `remaining` blocks are exactly those of the module files no marker named |
| Markers.EndAt | homeassistant_gitops/rootfs/app/gitops_bridge/yaml_modules.py:236-237 | the scan for a region's end stops at the first `# END ` line after the `# BEGIN ` line, or at the end of the file |
| Markers.After | homeassistant_gitops/rootfs/app/gitops_bridge/yaml_modules.py:234-239 | a marked region is skipped past its `# END ` line (or to the end), always moving forward |
| Markers.SpliceMarkers | homeassistant_gitops/rootfs/app/gitops_bridge/yaml_modules.py:229-245 | the `while index < len(existing_lines)` loop computes exactly the output lines and used markers of the specification `SpliceFrom` |
| Markers.RegionStep | homeassistant_gitops/rootfs/app/gitops_bridge/yaml_modules.py:231-244 | a marked region is replaced by the named file's current block when there is one and dropped otherwise, and the marker is then recorded as used |
| Markers.SpliceKeepsOutside | homeassistant_gitops/rootfs/app/gitops_bridge/yaml_modules.py:245-246 | lines outside the marked regions are copied to the output unchanged, in order, and name no block |
| Markers.SplicePlain | homeassistant_gitops/rootfs/app/gitops_bridge/yaml_modules.py:245-246 | a line that does not open a region is copied as it is |
| Markers.SpliceReplacesBlock | homeassistant_gitops/rootfs/app/gitops_bridge/yaml_modules.py:231-244 | the region of a file that still exists is replaced by exactly that file's current block, and the file counts as used |
| Markers.WriteIfChanged | homeassistant_gitops/rootfs/app/gitops_bridge/yaml_modules.py:253-258 | the merged file is written exactly when the stripped new text differs from the stripped old text, and what is written is the stripped new text with one newline |
| Markers.MergedText | homeassistant_gitops/rootfs/app/gitops_bridge/yaml_modules.py:218-262 | `merge_automations` writes nothing without module files; writes the fresh concatenation of all blocks when the merged file is missing or empty; otherwise writes the spliced text only when it changed |
| Markers.MergeAutomations | homeassistant_gitops/rootfs/app/gitops_bridge/yaml_modules.py:218-262 | the method returns exactly what `MergedText` specifies |
| Markers.MergeKeepsUnmarkedLines | homeassistant_gitops/rootfs/app/gitops_bridge/yaml_modules.py:229-252 | a merged file without markers keeps all its lines in order, then (after at most one blank line) every module file's block |
| Markers.UpdateSourceFromMarkers | homeassistant_gitops/rootfs/app/gitops_bridge/yaml_modules.py:265-298 | `update_source_from_markers` writes nothing when the merged file is missing and otherwise the files named by the markers, in order, with the text between the markers |
| Markers.SectionsAt | homeassistant_gitops/rootfs/app/gitops_bridge/yaml_modules.py:285-297 | one line of the copy-back: a `# BEGIN ` line flushes and opens its file, a `# END ` line flushes and closes, another line is collected only inside a block |
| Markers.FreshRoundTrip | homeassistant_gitops/rootfs/app/gitops_bridge/yaml_modules.py:218-298 | the marker round trip: after `merge_automations` writes a fresh merged file, `update_source_from_markers` rewrites every module file, in order, with its own text stripped and newline-terminated |
| Markers.FreshStripped | homeassistant_gitops/rootfs/app/gitops_bridge/yaml_modules.py:227 | the stripped fresh text is the joined blocks without their final blank line |
| Markers.SectionsReadAll | homeassistant_gitops/rootfs/app/gitops_bridge/yaml_modules.py:285-298 | the copy-back of a fresh merged file restores every module file, file after file |
| Markers.SectionsRead | homeassistant_gitops/rootfs/app/gitops_bridge/yaml_modules.py:274-293 | one block read back restores its file's text and leaves the copy-back outside any block |
| Markers.SectionsBlank | homeassistant_gitops/rootfs/app/gitops_bridge/yaml_modules.py:294-295 | a line outside every block is ignored |
| Markers.SectionsBegin | homeassistant_gitops/rootfs/app/gitops_bridge/yaml_modules.py:286-290 | a `# BEGIN ` line outside any block starts collecting the named file |
| Markers.SectionsEnd | homeassistant_gitops/rootfs/app/gitops_bridge/yaml_modules.py:291-293 | a `# END ` line flushes the file being collected and leaves the block |
| Markers.SectionsBody | homeassistant_gitops/rootfs/app/gitops_bridge/yaml_modules.py:294-295 | lines that are not markers are collected into the current file's buffer in order |
| Markers.FlushBody | homeassistant_gitops/rootfs/app/gitops_bridge/yaml_modules.py:274-282 | flushing a file writes its collected lines joined, stripped and newline-terminated |
| ModuleFiles.ParseListFile | homeassistant_gitops/rootfs/app/gitops_bridge/yaml_modules.py:912-921 | a file that fails to load is invalid and gives nothing but its load error; otherwise it is valid, hands back `data or []`, a blank one has no items, and one that is not a list has none and a warning |
| ModuleFiles.ListFileItems | homeassistant_gitops/rootfs/app/gitops_bridge/yaml_modules.py:912-921 | the items of a list file are its map entries, in order, with their own or written-in ids, and the ids taken afterwards are those before plus the items' ids |
| ModuleFiles.Settled | homeassistant_gitops/rootfs/app/gitops_bridge/yaml_modules.py:940-941 | an expansion that is SKIP reads as `None`, any other as itself |
| ModuleFiles.EntryItems | homeassistant_gitops/rootfs/app/gitops_bridge/yaml_modules.py:932-960 | a dict gives one item per entry, in entry order |
| ModuleFiles.EntryItemsFields | homeassistant_gitops/rootfs/app/gitops_bridge/yaml_modules.py:932-960 | each item's id is its key, its data the value, its order the position; it is expanded with SKIP read as `None` and named and fingerprinted from that expansion |
| ModuleFiles.ReadEntries | homeassistant_gitops/rootfs/app/gitops_bridge/yaml_modules.py:932-960 | the imperative loop over `data.items()` computes `EntryItems` |
| ModuleFiles.FirstWinsDistinct | homeassistant_gitops/rootfs/app/gitops_bridge/yaml_modules.py:1186-1192 | items under pairwise different keys are all indexed, in order, and none is reported a duplicate |
| ModuleFiles.DistinctKeys | homeassistant_gitops/rootfs/app/gitops_bridge/yaml_modules.py:1987-1995 | the items of one dict, under one helper type, have pairwise different index keys |
| ModuleFiles.EntryItemsIndexed | homeassistant_gitops/rootfs/app/gitops_bridge/yaml_modules.py:1987-1995 | indexing the items of one dict, by id or by `helper_type:id`, keeps every item and reports no duplicate |
| ModuleFiles.ParseMappingFile | homeassistant_gitops/rootfs/app/gitops_bridge/yaml_modules.py:924-962 | a file that fails to load is invalid; a blank one is an empty dict; a non-dict is refused with a warning but counts as valid; a dict gives one item per entry |
| ModuleFiles.MappingDomainNoDuplicates | homeassistant_gitops/rootfs/app/gitops_bridge/yaml_modules.py:977-1015 | a mapping domain file that is a dict never reports a duplicate id, and its index keys are exactly its keys |
| ModuleFiles.ViewsEntry | homeassistant_gitops/rootfs/app/gitops_bridge/yaml_modules.py:1040-1043 | `data.get("views") or []` is the views when they are a list, empty when absent or falsy, and otherwise empty with a warning |
| ModuleFiles.LovelaceShape | homeassistant_gitops/rootfs/app/gitops_bridge/yaml_modules.py:1034-1047 | a dict document is dict-shaped, its views from `views` and its meta every other key; a list is the views; blank is no views; anything else is no views and a warning |
| ModuleFiles.ParseLovelaceModule | homeassistant_gitops/rootfs/app/gitops_bridge/yaml_modules.py:1018-1060 | a file that fails to load is invalid with no views; the module is dict-shaped exactly when its document is a dict, and its meta never holds `views` |
| ModuleFiles.LovelaceModuleViews | homeassistant_gitops/rootfs/app/gitops_bridge/yaml_modules.py:1018-1060 | the views of a readable lovelace module come from the map entries of its list of views |
| ModuleFiles.RemoveUnique | homeassistant_gitops/rootfs/app/gitops_bridge/yaml_modules.py:1044 | leaving a key out of a dict keeps its keys distinct |
| ModuleFiles.LovelaceMetaRoundTrip | homeassistant_gitops/rootfs/app/gitops_bridge/yaml_modules.py:1874-1881 | reading a dict-shaped lovelace module and writing it back as `{"views": ..., **meta}` keeps every other key as it was |
| ModuleFiles.ParseLovelaceDomain | homeassistant_gitops/rootfs/app/gitops_bridge/yaml_modules.py:1063-1082 | a load error makes the domain invalid; only a dict is read, anything else is refused with a warning and read as empty; its meta never holds `views` |
| ModuleFiles.HelperGroupsSources | homeassistant_gitops/rootfs/app/gitops_bridge/yaml_modules.py:1972-1992 | every item of a helpers module file has a known helper type, and is an entry of that type's group |
| ModuleFiles.HelperGroupsComplete | homeassistant_gitops/rootfs/app/gitops_bridge/yaml_modules.py:1972-1992 | every entry of every known, dict-shaped group gives an item with its key, value, position and type |
| ModuleFiles.ReadHelperGroups | homeassistant_gitops/rootfs/app/gitops_bridge/yaml_modules.py:1972-1996 | the imperative nested loop over groups and entries computes `HelperGroups` |
| ModuleFiles.ParseHelpersFile | homeassistant_gitops/rootfs/app/gitops_bridge/yaml_modules.py:1957-1971 | a file that fails to load or is not a dict is invalid with a warning; a blank one holds no helpers; a dict is read group by group |
| ModuleFiles.HelperDomainFile | homeassistant_gitops/rootfs/app/gitops_bridge/yaml_modules.py:2009-2044 | a load error is reported and the file then read as empty; a non-dict is refused; each entry of a dict gives an item of that helper type, with its key and value |
| ModuleFiles.HelperDomain | homeassistant_gitops/rootfs/app/gitops_bridge/yaml_modules.py:2008-2044 | every domain helper has one of the helper types read, and comes from that type's file |
| ModuleFiles.ReadHelperDomain | homeassistant_gitops/rootfs/app/gitops_bridge/yaml_modules.py:2008-2044 | the imperative loop over `HELPER_TYPES` computes `HelperDomain` |
| ModuleItems.ExcludeKeys | homeassistant_gitops/rootfs/app/gitops_bridge/yaml_modules.py:861 | a fingerprint leaves out the id field when the domain has one, and nothing otherwise |
| ModuleItems.LineAt | homeassistant_gitops/rootfs/app/gitops_bridge/yaml_modules.py:867-869 | an entry has a line exactly when the loader gave one for its position |
| ModuleItems.OwnId | homeassistant_gitops/rootfs/app/gitops_bridge/yaml_modules.py:870-872 | an entry keeps its own id exactly when it has a non-empty one |
| ModuleItems.AutomationCandidate | homeassistant_gitops/rootfs/app/gitops_bridge/yaml_modules.py:875-877 | an automation without an id starts from its alias, else from its position |
| ModuleItems.GeneratedId | homeassistant_gitops/rootfs/app/gitops_bridge/yaml_modules.py:873-883 | a generated automation id is not yet taken; a lovelace view's is its sanitised position; it is never empty |
| ModuleItems.WithId | homeassistant_gitops/rootfs/app/gitops_bridge/yaml_modules.py:884-886 | the generated id is written into the id field exactly when the domain writes ids, and the entry is otherwise left as it was |
| ModuleItems.IdStep | homeassistant_gitops/rootfs/app/gitops_bridge/yaml_modules.py:863-906 | a non-map entry is skipped with a warning; a map entry is kept at its position with a non-empty id, which is then taken |
| ModuleItems.MakeItem | homeassistant_gitops/rootfs/app/gitops_bridge/yaml_modules.py:888-906 | an item carries the entry's id, data, file and position, its templates expanded, and its name and fingerprint from that expansion |
| ModuleItems.ItemsOf | homeassistant_gitops/rootfs/app/gitops_bridge/yaml_modules.py:888-906 | one item per kept entry, in order |
| ModuleItems.ParseListItems | homeassistant_gitops/rootfs/app/gitops_bridge/yaml_modules.py:854-858 | no data is an empty list; anything but a list is refused with a warning and gives nothing |
| ModuleItems.SettleId | homeassistant_gitops/rootfs/app/gitops_bridge/yaml_modules.py:870-887 | the loop body settles the entry's own id, or generates one (for automations by the counting loop of `_ensure_unique_id`), writes it back when the domain writes ids, and takes it |
| ModuleItems.ParseItems | homeassistant_gitops/rootfs/app/gitops_bridge/yaml_modules.py:846-909 | the imperative loop of `_parse_list_items`, with the counting loop of `_ensure_unique_id`, computes `ParseListItems` |
| ModuleItems.IdsOf | homeassistant_gitops/rootfs/app/gitops_bridge/yaml_modules.py:870-887 | the ids of a list of items |
| ModuleItems.AssignIdsShape | homeassistant_gitops/rootfs/app/gitops_bridge/yaml_modules.py:863-887 | one step per entry, and the ids taken afterwards are those before plus the kept entries' ids |
| ModuleItems.AssignIdsChanged | homeassistant_gitops/rootfs/app/gitops_bridge/yaml_modules.py:884-886 | the file changed exactly when the domain writes ids and some map entry had no id |
| ModuleItems.KeptIds | homeassistant_gitops/rootfs/app/gitops_bridge/yaml_modules.py:870-887 | the ids of the kept entries are exactly the ids of the kept steps |
| ModuleItems.ItemsFromKepts | homeassistant_gitops/rootfs/app/gitops_bridge/yaml_modules.py:888-906 | items built one per kept entry match the entries and carry exactly their ids |
| ModuleItems.ParseListItemsShape | homeassistant_gitops/rootfs/app/gitops_bridge/yaml_modules.py:846-909 | every item comes from a map entry at its position, keeping its own id and content or carrying the id written into it, and the ids taken afterwards are those before plus the items' ids |
| ModuleItems.GeneratedAutomationIdFresh | homeassistant_gitops/rootfs/app/gitops_bridge/yaml_modules.py:873-879 | an automation without an id gets one that no id taken before has |
| ModuleItems.WrittenIdReadable | homeassistant_gitops/rootfs/app/gitops_bridge/yaml_modules.py:884-886 | the id written back is readable under the id field, and every other key is unchanged |
| ModuleItems.WrittenIdIsOwn | homeassistant_gitops/rootfs/app/gitops_bridge/yaml_modules.py:870-886 | once written back, an id is the entry's own, so reading the file again gives the same id |
| ModuleItems.EntryIdsHas | homeassistant_gitops/rootfs/app/gitops_bridge/yaml_modules.py:1165-1169 | an id is collected from a list exactly when some entry gives it |
| ModuleItems.SeedIdsHas | homeassistant_gitops/rootfs/app/gitops_bridge/yaml_modules.py:1157-1169 | an id is seeded exactly when some module file's list has an entry giving it |
| ModuleItems.SeededOwnId | homeassistant_gitops/rootfs/app/gitops_bridge/yaml_modules.py:1165-1169 | the id an entry contributes to the seed is its own id |
| ModuleItems.SeedUsedIds | homeassistant_gitops/rootfs/app/gitops_bridge/yaml_modules.py:1157-1169 | the imperative seeding loop computes `SeedIds` |
| Preference.Parse | homeassistant_gitops/rootfs/app/gitops_bridge/yaml_modules.py:1109-1111 | a name denotes a preference exactly when it is `modules`, `domain` or `mixed`, and then names it back |
| Preference.ParseName | homeassistant_gitops/rootfs/app/gitops_bridge/yaml_modules.py:1109-1111 | names and preferences correspond one to one |
| Preference.DecidePreference | homeassistant_gitops/rootfs/app/gitops_bridge/yaml_modules.py:1085-1104 | without stored state the modules win unless only the domain file exists; with state the domain wins exactly when only it changed, both changed is `mixed`, and otherwise the modules win |
| Preference.ResolvePreference | homeassistant_gitops/rootfs/app/gitops_bridge/yaml_modules.py:1107-1112 | no override keeps the computed preference; an override is refused unless it names a preference, and then replaces it |
| Preference.ShouldWriteTarget | homeassistant_gitops/rootfs/app/gitops_bridge/yaml_modules.py:1115-1122 | `all` writes both sides, `domain` and `modules` only their own, and any other mode is refused |
| Preference.OneSideWritten | homeassistant_gitops/rootfs/app/gitops_bridge/yaml_modules.py:1115-1122 | a single-side write mode writes exactly one of the two sides |
| Preference.ChangesSince | homeassistant_gitops/rootfs/app/gitops_bridge/yaml_modules.py:1244-1246 | there is state when either hash is stored; the domain changed when it is valid and got an id injected or its hash differs; the modules changed when they got an id injected or their hash differs |
| Preference.ComputedPreference | homeassistant_gitops/rootfs/app/gitops_bridge/yaml_modules.py:1244-1254 | without stored state the computed preference is never `mixed` |
| Preference.UnchangedKeepsModules | homeassistant_gitops/rootfs/app/gitops_bridge/yaml_modules.py:1244-1254 | after a run stored the current hashes, a run over unchanged files keeps the modules |
| Preference.DomainEditWins | homeassistant_gitops/rootfs/app/gitops_bridge/yaml_modules.py:1244-1254 | editing only the domain file after a run makes the domain win the next one |
| Preference.InvalidDomainNeverWins | homeassistant_gitops/rootfs/app/gitops_bridge/yaml_modules.py:1244-1254 | an invalid domain file never counts as changed, so it never makes the domain win |
| ReconcileIds.WithFingerprint | homeassistant_gitops/rootfs/app/gitops_bridge/yaml_modules.py:2319-2329 | the items with a fingerprint are exactly the items carrying it, in order |
| ReconcileIds.GroupByFingerprint | homeassistant_gitops/rootfs/app/gitops_bridge/yaml_modules.py:2319-2329 | the `setdefault(...).append` loop computes `Groups` |
| ReconcileIds.GroupsHold | homeassistant_gitops/rootfs/app/gitops_bridge/yaml_modules.py:2319-2329 | the group of a non-empty fingerprint holds exactly the items with it, in order, and exists exactly when some item has it; items with an empty fingerprint are grouped nowhere |
| ReconcileIds.GroupsDistinct | homeassistant_gitops/rootfs/app/gitops_bridge/yaml_modules.py:2319-2329 | no fingerprint has two groups |
| ReconcileIds.GroupRewrite | homeassistant_gitops/rootfs/app/gitops_bridge/yaml_modules.py:2331-2347 | a group gives a rewrite exactly when it has one module item, one domain item, and their ids differ; the rewrite gives the module item the domain id |
| ReconcileIds.GroupAmbiguity | homeassistant_gitops/rootfs/app/gitops_bridge/yaml_modules.py:2331-2353 | a group is reported ambiguous exactly when both sides have items and the match is not one-to-one |
| ReconcileIds.MatchGroups | homeassistant_gitops/rootfs/app/gitops_bridge/yaml_modules.py:2331-2353 | the loop over `module_by_fp` computes the rewrites and the ambiguous fingerprints, in group order |
| ReconcileIds.RewritesExactly | homeassistant_gitops/rootfs/app/gitops_bridge/yaml_modules.py:2319-2347 | an id is rewritten exactly for the one-to-one fingerprint matches whose ids differ |
| ReconcileIds.AmbiguousExactly | homeassistant_gitops/rootfs/app/gitops_bridge/yaml_modules.py:2319-2353 | a fingerprint is reported ambiguous exactly when both sides have items with it and they do not match one-to-one |
| ReconcileIds.Renamed | homeassistant_gitops/rootfs/app/gitops_bridge/yaml_modules.py:2337-2339 | renaming sets the `id` field and `ha_id` to the new id and keeps the source, order and fingerprint |
| ReconcileIds.RewriteFor | homeassistant_gitops/rootfs/app/gitops_bridge/yaml_modules.py:2338-2339 | an item's rewrite, when found, is one of the rewrites for that item, and when not found no rewrite names it |
| ReconcileIds.Applied | homeassistant_gitops/rootfs/app/gitops_bridge/yaml_modules.py:2338-2339 | after the rewrites, a rewritten item is renamed and every other item is unchanged |
| ReconcileIds.RenamedReadsNewId | homeassistant_gitops/rootfs/app/gitops_bridge/yaml_modules.py:2338-2339 | a rewritten entry read again has the domain's id as its own id, and every other key as before |
| ReconcileIds.ReadModules | homeassistant_gitops/rootfs/app/gitops_bridge/yaml_modules.py:2299-2305 | each module file is parsed on its own, in order |
| ReconcileIds.Payloads | homeassistant_gitops/rootfs/app/gitops_bridge/yaml_modules.py:2355-2358 | a payload is written only for a module file that was readable |
| ReconcileIds.ReconcileAutomationIds | homeassistant_gitops/rootfs/app/gitops_bridge/yaml_modules.py:2271-2366 | no module files stops the run with "No automation module files found."; an invalid `automations.yaml` stops it with "automations.yaml is invalid."; a finished run writes only module files |
| ReconcileIds.RewritesAreMatches | homeassistant_gitops/rootfs/app/gitops_bridge/yaml_modules.py:2319-2360 | a finished run's rewrites are exactly the one-to-one matches, and its status is "reconciled" exactly when there is one |
| ReconcileIds.ReconcileRewritesMatches | homeassistant_gitops/rootfs/app/gitops_bridge/yaml_modules.py:2297-2360 | over the readable module files and `automations.yaml`, a finished run rewrites exactly the one-to-one fingerprint matches whose ids differ, and reports "reconciled" exactly when there is one |
| AutomationIdSpike.SubRuns | homeassistant_gitops/rootfs/app/gitops_bridge/spikes/automation_id_spike.py:30 | the substitution leaves only label characters |
| AutomationIdSpike.SubRunsClean | homeassistant_gitops/rootfs/app/gitops_bridge/spikes/automation_id_spike.py:30 | with nothing to replace the substitution changes nothing |
| AutomationIdSpike.SubRunsRun | homeassistant_gitops/rootfs/app/gitops_bridge/spikes/automation_id_spike.py:30 | a run of other characters, however long, becomes a single `-` |
| AutomationIdSpike.SanitizedLabel | homeassistant_gitops/rootfs/app/gitops_bridge/spikes/automation_id_spike.py:29-31 | the label is non-empty, made of label characters, and neither starts nor ends with `-` |
| AutomationIdSpike.LabelNoSlash | homeassistant_gitops/rootfs/app/gitops_bridge/spikes/automation_id_spike.py:29-31 | a safe label holds no `/`, so it cannot leave the snapshot directory |
| AutomationIdSpike.SanitizeKeeps | homeassistant_gitops/rootfs/app/gitops_bridge/spikes/automation_id_spike.py:29-31 | a label already safe and not edged with `-` is kept as it is |
| AutomationIdSpike.SanitizeIdempotent | homeassistant_gitops/rootfs/app/gitops_bridge/spikes/automation_id_spike.py:29-31 | sanitising twice gives what sanitising once gives |
| AutomationIdSpike.SnapshotFileName | homeassistant_gitops/rootfs/app/gitops_bridge/spikes/automation_id_spike.py:76 | the snapshot's file name ends in `.json` and holds no `/` when the timestamp holds none |
| AutomationIdSpike.ResolveOne | homeassistant_gitops/rootfs/app/gitops_bridge/spikes/automation_id_spike.py:37-49 | a blank entry is skipped exactly when blank; an absolute path and one with `..` are refused with the source's messages; an accepted path lies under the config directory |
| AutomationIdSpike.NoEscape | homeassistant_gitops/rootfs/app/gitops_bridge/spikes/automation_id_spike.py:44-48 | below a config directory without `..` the "must stay within" refusal never happens, and an accepted entry resolves to the directory followed by its parts |
| AutomationIdSpike.ResolveEach | homeassistant_gitops/rootfs/app/gitops_bridge/spikes/automation_id_spike.py:36-49 | every accepted path lies under the config directory, one per non-blank entry |
| AutomationIdSpike.ResolveEachErr | homeassistant_gitops/rootfs/app/gitops_bridge/spikes/automation_id_spike.py:36-49 | a refusal among the first entries is the refusal of the whole list |
| AutomationIdSpike.ResolvedPaths | homeassistant_gitops/rootfs/app/gitops_bridge/spikes/automation_id_spike.py:34-52 | the first refusal is raised; otherwise the paths are refused with "At least one path is required." exactly when no entry is non-blank |
| AutomationIdSpike.AllBlankRefused | homeassistant_gitops/rootfs/app/gitops_bridge/spikes/automation_id_spike.py:50-51 | only blank entries leave nothing to snapshot |
| AutomationIdSpike.ResolvePaths | homeassistant_gitops/rootfs/app/gitops_bridge/spikes/automation_id_spike.py:34-52 | the imperative loop computes `ResolvedPaths` |
| SyncChoose.Decide | homeassistant_gitops/rootfs/app/gitops_bridge/yaml_modules.py:1269-1363 | the per-entry decision: a module copy is kept only when there is one, a domain copy only when there is one, a merge only for a templated module copy with a domain copy; "missing from modules" is reported exactly for a domain-only entry under "modules", or under "mixed" outside the unassigned file; an entry is dropped exactly when the domain lacks it and there is no module copy or the preference is "domain", or "mixed" in the unassigned file |
| SyncChoose.MixedSplits | homeassistant_gitops/rootfs/app/gitops_bridge/yaml_modules.py:1269-1363 | "mixed" decides as "domain" for the unassigned file and as "modules" for every other file |
| SyncChoose.ModulesPreferenceKeeps | homeassistant_gitops/rootfs/app/gitops_bridge/yaml_modules.py:1269-1320 | preferring the modules keeps every module copy and never drops an item that either side has |
| SyncChoose.DomainPreferenceFollowsDomain | homeassistant_gitops/rootfs/app/gitops_bridge/yaml_modules.py:1269-1312 | preferring the domain keeps every domain item, merged exactly when the module copy is templated, and drops what only the modules have |
| SyncChoose.SetDefault | homeassistant_gitops/rootfs/app/gitops_bridge/yaml_modules.py:1262 | `setdefault(f, [])` adds an empty group at the end when `f` is new and otherwise changes nothing |
| SyncChoose.ItemsInAppendTo | homeassistant_gitops/rootfs/app/gitops_bridge/yaml_modules.py:1275-1363 | appending to one file's list adds to that file only |
| SyncChoose.EntrySource | homeassistant_gitops/rootfs/app/gitops_bridge/yaml_modules.py:1261 | an entry's file is its `source` text, or the unassigned file |
| SyncChoose.TargetKey | homeassistant_gitops/rootfs/app/gitops_bridge/yaml_modules.py:1263-1267 | an entry is looked up only when it has a non-empty id (for helpers, a truthy helper type and id), under that id or the helper's index key |
| SyncChoose.PickCases | homeassistant_gitops/rootfs/app/gitops_bridge/yaml_modules.py:1260-1363 | an entry adds nothing exactly when the decision drops it; otherwise it adds the copy the decision names, found under the entry's key, and only a missing module copy is warned about |
| SyncChoose.ChooseAllFiles | homeassistant_gitops/rootfs/app/gitops_bridge/yaml_modules.py:1259-1363 | after the loop, each file holds what it held before followed by the picks of the entries that name it, in index order |
| SyncChoose.ChooseAllHasFile | homeassistant_gitops/rootfs/app/gitops_bridge/yaml_modules.py:1259-1363 | a file is present after the loop exactly when it was before or some entry names it |
| SyncChoose.PicksForHas | homeassistant_gitops/rootfs/app/gitops_bridge/yaml_modules.py:1260-1363 | an entry's pick lands in the list of the file it names |
| SyncChoose.ChooseItems | homeassistant_gitops/rootfs/app/gitops_bridge/yaml_modules.py:1260-1363 | the imperative loop over `mapping_index` computes `ChooseAll` |
| SyncChoose.InitialFiles | homeassistant_gitops/rootfs/app/gitops_bridge/yaml_modules.py:1259 | the loop starts with an empty list for every readable module file, in order |
| SyncChoose.MergedItem | homeassistant_gitops/rootfs/app/gitops_bridge/yaml_modules.py:1279-1310 | the merged item keeps the domain item's id and order and the module item's file, holds the template-preserving merge of the two and is expanded again from the module file |
| SyncChoose.ModuleRecordTarget | homeassistant_gitops/rootfs/app/gitops_bridge/yaml_modules.py:1226-1267 | the mapping entry made for a module item points back at that item and its file |
| SyncChoose.ModulesPreferenceKeepsEveryModuleItem | homeassistant_gitops/rootfs/app/gitops_bridge/yaml_modules.py:1226-1363 | preferring the modules, every module item ends up in its own file's list |
| SyncChoose.DomainPreferencePick | homeassistant_gitops/rootfs/app/gitops_bridge/yaml_modules.py:1278-1312 | preferring the domain, an entry never adds a module copy as it is |
| SyncChoose.DomainPreferenceKeepsDomainCopies | homeassistant_gitops/rootfs/app/gitops_bridge/yaml_modules.py:1259-1312 | preferring the domain, everything the loop adds is a domain item or its merge with a templated module copy |
| SyncIndex.IndexGet | homeassistant_gitops/rootfs/app/gitops_bridge/yaml_modules.py:1266-1267 | `d.get(k)` finds something exactly when the key is present, and then an entry under that key |
| SyncIndex.KeyOf | homeassistant_gitops/rootfs/app/gitops_bridge/yaml_modules.py:1186-1192 | list and mapping domains index an item by its id; helpers by `helper_type:id` |
| SyncIndex.FirstWith | homeassistant_gitops/rootfs/app/gitops_bridge/yaml_modules.py:1186-1192 | the position found is the first item under the key, and none is found exactly when no item has that key |
| SyncIndex.FirstWinsIndex | homeassistant_gitops/rootfs/app/gitops_bridge/yaml_modules.py:1186-1192 | the first-wins index holds each key once, and under each key exactly the first item that has it |
| SyncIndex.IndexAppendNew | homeassistant_gitops/rootfs/app/gitops_bridge/yaml_modules.py:1192 | storing an item under a new key keeps keys distinct and answers only that key anew |
| SyncIndex.FirstWinsDuplicates | homeassistant_gitops/rootfs/app/gitops_bridge/yaml_modules.py:1187-1191 | every item set aside as a duplicate is an item whose key is already indexed |
| SyncIndex.IndexItems | homeassistant_gitops/rootfs/app/gitops_bridge/yaml_modules.py:1186-1207 | the indexing loops compute `FirstWins` |
| SyncIndex.ItemsByFile | homeassistant_gitops/rootfs/app/gitops_bridge/yaml_modules.py:1175-1183 | `module_items_by_file` holds exactly the readable files with their items |
| SyncIndex.InvalidFiles | homeassistant_gitops/rootfs/app/gitops_bridge/yaml_modules.py:1180-1182 | `invalid_module_files` is exactly the unreadable files |
| SyncIndex.ModuleItemsInOrderHas | homeassistant_gitops/rootfs/app/gitops_bridge/yaml_modules.py:1175-1192 | every item of a readable file is among the module items |
| SyncIndex.DuplicateMessages | homeassistant_gitops/rootfs/app/gitops_bridge/yaml_modules.py:1187-1205 | one duplicate warning per item set aside, in order |
| SyncIndex.MappingEntryKey | homeassistant_gitops/rootfs/app/gitops_bridge/yaml_modules.py:839-843 | `_mapping_entry_key` is `helper_type:id` when the entry's helper type is truthy and the id as text otherwise |
| SyncIndex.LastWith | homeassistant_gitops/rootfs/app/gitops_bridge/yaml_modules.py:1219-1224 | the position found is the last indexable stored entry under the key, and none is found exactly when there is none |
| SyncIndex.IndexByGet | homeassistant_gitops/rootfs/app/gitops_bridge/yaml_modules.py:1219-1224 | under each key the stored index holds the last indexable entry with that key (later entries overwrite), and nothing under other keys |
| SyncIndex.ModuleRecord | homeassistant_gitops/rootfs/app/gitops_bridge/yaml_modules.py:1226-1232 | a module item's record names its id and its own module file |
| SyncIndex.DomainRecord | homeassistant_gitops/rootfs/app/gitops_bridge/yaml_modules.py:1234-1237 | a domain-only item's record names its id and the unassigned file |
| SyncIndex.MappingIndex | homeassistant_gitops/rootfs/app/gitops_bridge/yaml_modules.py:1219-1237 | `mapping_index` holds each key once |
| SyncIndex.WithModulesGet | homeassistant_gitops/rootfs/app/gitops_bridge/yaml_modules.py:1226-1232 | a module item's key reads as its module record, whatever was stored under it |
| SyncIndex.WithDomainGet | homeassistant_gitops/rootfs/app/gitops_bridge/yaml_modules.py:1234-1237 | a key already known reads as before; a new domain key reads as its domain record |
| SyncIndex.MappingIndexGet | homeassistant_gitops/rootfs/app/gitops_bridge/yaml_modules.py:1219-1237 | a module item's key names its own file; otherwise a stored entry is kept; otherwise a domain-only key names the unassigned file; any other key is absent |
| SyncOutput.ByOrder | homeassistant_gitops/rootfs/app/gitops_bridge/yaml_modules.py:1368 | `sorted(items, key=order)` is a permutation of the items, sorted by order |
| SyncOutput.ByOrderHas | homeassistant_gitops/rootfs/app/gitops_bridge/yaml_modules.py:1368 | sorting keeps exactly the same items |
| SyncOutput.OfType | homeassistant_gitops/rootfs/app/gitops_bridge/yaml_modules.py:2214 | the items of one helper type are exactly the items with that type |
| SyncOutput.PutAllGet | homeassistant_gitops/rootfs/app/gitops_bridge/yaml_modules.py:1610-1612 | in a dict comprehension the last value under a key wins |
| SyncOutput.LastValue | homeassistant_gitops/rootfs/app/gitops_bridge/yaml_modules.py:1610-1612 | a key has a last value exactly when some pair has that key |
| SyncOutput.ListFilePayload | homeassistant_gitops/rootfs/app/gitops_bridge/yaml_modules.py:1365-1370 | a list domain's module file holds one entry per item, exactly the items' data |
| SyncOutput.MappingFilePayload | homeassistant_gitops/rootfs/app/gitops_bridge/yaml_modules.py:1607-1613 | a mapping domain's module file is a dict with each key once |
| SyncOutput.MappingFilePayloadGet | homeassistant_gitops/rootfs/app/gitops_bridge/yaml_modules.py:1607-1613 | its keys are exactly the items' ids, each holding the data of the last item (by order) with that id |
| SyncOutput.HelpersFilePayload | homeassistant_gitops/rootfs/app/gitops_bridge/yaml_modules.py:2209-2220 | the helpers' module file has a key exactly for each helper type some item has |
| SyncOutput.ViewsWithMeta | homeassistant_gitops/rootfs/app/gitops_bridge/yaml_modules.py:1881 | `{"views": views, **meta}` is a dict with each key once |
| SyncOutput.LovelaceFilePayload | homeassistant_gitops/rootfs/app/gitops_bridge/yaml_modules.py:1874-1886 | the file that holds the dashboard's other keys gets them beside its views; a dict-shaped or new file gets `{"views": ...}`; a list-shaped file gets the bare list |
| SyncOutput.MetaSource | homeassistant_gitops/rootfs/app/gitops_bridge/yaml_modules.py:1671-1683 | `meta_source` is the first lovelace module with keys besides `views`, and there is none exactly when no module has such keys |
| SyncOutput.MetaPayload | homeassistant_gitops/rootfs/app/gitops_bridge/yaml_modules.py:1859-1872 | the dashboard's other keys come from the domain when the domain is preferred or no module has any, and from `meta_source` otherwise |
| SyncOutput.CombinedListFilters | homeassistant_gitops/rootfs/app/gitops_bridge/yaml_modules.py:1372-1381 | the combined list is the successful expansions in order, and the skip warnings the failed ones in order |
| SyncOutput.CombinedListHas | homeassistant_gitops/rootfs/app/gitops_bridge/yaml_modules.py:1372-1381 | the combined list holds exactly the expansions that succeeded |
| SyncOutput.CombinedDict | homeassistant_gitops/rootfs/app/gitops_bridge/yaml_modules.py:1616-1629 | the combined dict holds each id once |
| SyncOutput.CombinedDictGet | homeassistant_gitops/rootfs/app/gitops_bridge/yaml_modules.py:1616-1629 | under each id the combined dict holds the first successful expansion: the duplicate check comes before the expansion check, so a failed item does not block a later one |
| SyncOutput.CombineDict | homeassistant_gitops/rootfs/app/gitops_bridge/yaml_modules.py:1616-1629 | the imperative combining loop computes `CombinedDict` |
| SyncOutput.DomainAction | homeassistant_gitops/rootfs/app/gitops_bridge/yaml_modules.py:804-824 | the domain file is deleted exactly when the payload is empty, and otherwise written with that payload |
| SyncOutput.ListDomainDeleted | homeassistant_gitops/rootfs/app/gitops_bridge/yaml_modules.py:804-809 | a list domain's file is deleted exactly when no item is left |
| SyncOutput.DictDomainDeleted | homeassistant_gitops/rootfs/app/gitops_bridge/yaml_modules.py:804-809 | a mapping or helper domain's file is deleted exactly when no item is left |
| SyncOutput.LovelaceDomainDeleted | homeassistant_gitops/rootfs/app/gitops_bridge/yaml_modules.py:804-809 | the dashboard file is deleted exactly when it would hold no view and no other key |
| SyncOutput.ViewsWithMetaGet | homeassistant_gitops/rootfs/app/gitops_bridge/yaml_modules.py:1900 | the dashboard payload holds the views under `views` and every other key as the metadata had it |
| SyncOutput.EntryRecord | homeassistant_gitops/rootfs/app/gitops_bridge/yaml_modules.py:1390-1395 | a mapping entry names the item's id and its file |
| SyncOutput.MappingEntries | homeassistant_gitops/rootfs/app/gitops_bridge/yaml_modules.py:1387-1396 | `mapping["entries"]` is a permutation of one entry per desired item, sorted by id (helpers by type, then id) |
| SyncOutput.RawEntriesHas | homeassistant_gitops/rootfs/app/gitops_bridge/yaml_modules.py:1387-1395 | every desired item gets an entry naming its file |
| SyncOutput.RawEntriesFrom | homeassistant_gitops/rootfs/app/gitops_bridge/yaml_modules.py:1387-1395 | every entry is the entry of some desired item and its file |
| SyncOutput.MappingEntriesHas | homeassistant_gitops/rootfs/app/gitops_bridge/yaml_modules.py:1387-1397 | the written mapping holds an entry exactly for each desired item, naming its file |
| SyncOutput.ModuleWrites | homeassistant_gitops/rootfs/app/gitops_bridge/yaml_modules.py:1365-1370 | the module files written are exactly the desired files that were readable, each with its payload |
| TemplateDiffs.EditsFor | homeassistant_gitops/rootfs/app/gitops_bridge/yaml_modules.py:585-587 | the edits of one template are exactly the recorded edits naming it, in recording order |
| TemplateDiffs.GroupIndex | homeassistant_gitops/rootfs/app/gitops_bridge/yaml_modules.py:585-587 | the group found for a path is that path's group, and none is found exactly when the path has no group |
| TemplateDiffs.GroupByTemplate | homeassistant_gitops/rootfs/app/gitops_bridge/yaml_modules.py:585-587 | `by_template` has one group per template path, exactly the paths some edit names, each non-empty and holding all of that path's edits in order |
| TemplateDiffs.AddEditGroups | homeassistant_gitops/rootfs/app/gitops_bridge/yaml_modules.py:586-587 | one `setdefault(...).append` step keeps one group per path, adds the edit's path and keeps every group equal to its path's edits |
| TemplateDiffs.AddEditPaths | homeassistant_gitops/rootfs/app/gitops_bridge/yaml_modules.py:586-587 | adding an edit keeps paths distinct and adds just its path |
| TemplateDiffs.AddEditExisting | homeassistant_gitops/rootfs/app/gitops_bridge/yaml_modules.py:586-587 | an edit for a path already grouped goes to the end of that group alone |
| TemplateDiffs.AddEditNew | homeassistant_gitops/rootfs/app/gitops_bridge/yaml_modules.py:586-587 | an edit for a new path opens a new group at the end |
| TemplateDiffs.GroupEdits | homeassistant_gitops/rootfs/app/gitops_bridge/yaml_modules.py:585-587 | the grouping loop computes `GroupByTemplate` |
| TemplateDiffs.ProposedByFp | homeassistant_gitops/rootfs/app/gitops_bridge/yaml_modules.py:598-600 | `proposed_by_fp` holds each proposal fingerprint once, exactly the fingerprints of the edits, the first entry being the first edit's |
| TemplateDiffs.ConflictIff | homeassistant_gitops/rootfs/app/gitops_bridge/yaml_modules.py:598-606 | there is more than one fingerprint exactly when two of the template's edits disagree |
| TemplateDiffs.CandidateLines | homeassistant_gitops/rootfs/app/gitops_bridge/yaml_modules.py:615-627 | the header holds the edited-in and included-from line of every edit, and no other line |
| TemplateDiffs.HeaderLines | homeassistant_gitops/rootfs/app/gitops_bridge/yaml_modules.py:614-628 | the header lines are distinct (`dict.fromkeys`), start with the title and hold exactly the title and each edit's two lines |
| TemplateDiffs.TemplateDiff | homeassistant_gitops/rootfs/app/gitops_bridge/yaml_modules.py:589-632 | one template gives a conflict warning exactly when its edits disagree, nothing when they agree and the diff is blank, and otherwise `<template>.diff` starting with the title and ending with the diff |
| TemplateDiffs.DiffText | homeassistant_gitops/rootfs/app/gitops_bridge/yaml_modules.py:628-631 | the diff file's text starts with the title line and ends with the diff |
| TemplateDiffs.Outcomes | homeassistant_gitops/rootfs/app/gitops_bridge/yaml_modules.py:589-632 | every template group gets its own outcome, in group order |
| TemplateDiffs.Collect | homeassistant_gitops/rootfs/app/gitops_bridge/yaml_modules.py:589-633 | the files written are exactly the diff-file outcomes and the warnings exactly the conflicts' messages |
| TemplateDiffs.ConflictWarned | homeassistant_gitops/rootfs/app/gitops_bridge/yaml_modules.py:601-606 | a template whose edits disagree gets its conflict warning |
| TemplateDiffs.AgreedWritten | homeassistant_gitops/rootfs/app/gitops_bridge/yaml_modules.py:607-632 | a template whose edits agree and whose diff is not blank gets its diff file, ending with that diff |
| TemplateDiffs.WrittenAgreed | homeassistant_gitops/rootfs/app/gitops_bridge/yaml_modules.py:601-632 | every diff file written belongs to a template whose edits all agree |
| TemplateDiffs.WriteTemplateDiffs | homeassistant_gitops/rootfs/app/gitops_bridge/yaml_modules.py:576-633 | the imperative `_write_template_diffs` computes the files and warnings of `Collect` over the groups in first-edit order |
| TemplateMerge.TemplateNode | homeassistant_gitops/rootfs/app/gitops_bridge/yaml_modules.py:474-511 | a template-tagged module node is always kept; an edit is proposed exactly when its expansion succeeds, differs from the domain value and the tag resolves to one file, and then it is a single edit carrying the domain value, the tag and that file |
| TemplateMerge.EditNotes | homeassistant_gitops/rootfs/app/gitops_bridge/yaml_modules.py:505-510 | the undiffable-edit warning follows the expansion and resolution warnings exactly when the edit cannot be diffed |
| TemplateMerge.Merge | homeassistant_gitops/rootfs/app/gitops_bridge/yaml_modules.py:450-555 | the merged value keeps a template node as it is; a merged dict has exactly the domain dict's keys; a merged list has the domain list's length; any other pair gives the domain value; past depth 50 the domain value comes back with one warning |
| TemplateMerge.MergeEntries | homeassistant_gitops/rootfs/app/gitops_bridge/yaml_modules.py:514-528 | the first loop over the module dict keeps exactly the keys both dicts have |
| TemplateMerge.Missing | homeassistant_gitops/rootfs/app/gitops_bridge/yaml_modules.py:529-532 | the second loop adds exactly the domain's entries whose key the module dict lacks, in domain order |
| TemplateMerge.MergeItems | homeassistant_gitops/rootfs/app/gitops_bridge/yaml_modules.py:536-551 | the list loop merges exactly the positions both lists have |
| TemplateMerge.MergeWithoutTemplates | homeassistant_gitops/rootfs/app/gitops_bridge/yaml_modules.py:450-555 | a module value without template tags merges to a value equal to the domain value under Python's `==`, and proposes no template edit |
| TemplateMerge.EntriesWithoutTemplates | homeassistant_gitops/rootfs/app/gitops_bridge/yaml_modules.py:514-528 | without templates, each shared key merges to a value equal to the domain's value under it, with no edit |
| TemplateMerge.ItemsWithoutTemplates | homeassistant_gitops/rootfs/app/gitops_bridge/yaml_modules.py:536-551 | without templates, each pairwise merge equals the domain's item, with no edit |
| TemplateMerge.MissingAgrees | homeassistant_gitops/rootfs/app/gitops_bridge/yaml_modules.py:529-532 | each entry copied from the domain equals the domain's value under its key |
| TemplateMerge.MapPyEq | homeassistant_gitops/rootfs/app/gitops_bridge/yaml_modules.py:513-533 | shared entries followed by the domain's added ones form a dict equal to the domain dict |
| YamlTags.LoadErrorText | homeassistant_gitops/rootfs/app/gitops_bridge/fs_utils.py:43-50 | the load error of a file that does not parse is its config-relative path, then `: `, then the parser's message |
| YamlTags.IsTemplateTagIff | homeassistant_gitops/rootfs/app/gitops_bridge/yaml_tags.py:70-79 | a tag is a template tag exactly when it starts with `!` and, read case-insensitively, ends in `.template.yaml` or `.template.yml` (the slashes `lstrip` drops never change that) |
| YamlTags.NormalizeConfigRelative | homeassistant_gitops/rootfs/app/gitops_bridge/yaml_tags.py:82-89 | an include path is accepted exactly when, stripped of whitespace and leading `/`, it is non-empty and has no `..` part; the accepted path is that stripped text, relative and non-empty |
| YamlTags.MergeKeyAt | homeassistant_gitops/rootfs/app/gitops_bridge/yaml_tags.py:93-101 | one step of the `_deep_merge` loop changes only the key it assigns |
| YamlTags.DeepMergeAt | homeassistant_gitops/rootfs/app/gitops_bridge/yaml_tags.py:92-102 | after `_deep_merge`, a left-only key keeps its value; a key on both sides holding dicts gets their deep merge, holding lists their concatenation, and otherwise the right value |
| YamlTags.DeepMergeKeys | homeassistant_gitops/rootfs/app/gitops_bridge/yaml_tags.py:92-102 | the merged dict holds exactly the keys of the two sides |
| YamlTags.DeepMergeKeepsOrder | homeassistant_gitops/rootfs/app/gitops_bridge/yaml_tags.py:92-102 | the left dict's keys come first in the merged dict, in their order (`dict(left)` then new keys appended) |
| YamlTags.DeepMergeUnique | homeassistant_gitops/rootfs/app/gitops_bridge/yaml_tags.py:92-102 | merging keeps keys unique |
| YamlTags.DeepMergeDicts | homeassistant_gitops/rootfs/app/gitops_bridge/yaml_tags.py:92-102 | the loop that copies `left` and assigns each right-hand key computes `DeepMerge` |
| YamlTags.LoadYamlFile | homeassistant_gitops/rootfs/app/gitops_bridge/yaml_tags.py:149-161 | loading gives SKIP exactly for a missing file or invalid YAML; a blank file gives `None` with no warning |
| YamlTags.TemplateFiles | homeassistant_gitops/rootfs/app/gitops_bridge/yaml_tags.py:127-133 | the glob branch keeps exactly the matches that are files whose name is a template name |
| YamlTags.ResolveTemplateCandidates | homeassistant_gitops/rootfs/app/gitops_bridge/yaml_tags.py:105-146 | every template candidate is an existing file |
| YamlTags.ResolvePattern | homeassistant_gitops/rootfs/app/gitops_bridge/yaml_tags.py:127-146 | the candidates of an accepted pattern are existing files, from the glob or the single path |
| YamlTags.ExpandItemsKeepsOrder | homeassistant_gitops/rootfs/app/gitops_bridge/yaml_tags.py:388-403 | expanding a list drops exactly the entries that give SKIP and keeps the rest in order |
| YamlTags.ExpandEntriesGet | homeassistant_gitops/rootfs/app/gitops_bridge/yaml_tags.py:372-387 | expanding a dict maps each key to its value's expansion, and a key whose value gives SKIP is absent |
| YamlTags.ExpandCandidatesAll | homeassistant_gitops/rootfs/app/gitops_bridge/yaml_tags.py:204-217 | the candidates loop succeeds exactly when no candidate gives SKIP, and then yields every candidate's expansion in order |
| YamlTags.CandidatesStuck | homeassistant_gitops/rootfs/app/gitops_bridge/yaml_tags.py:215-216 | once a candidate gives SKIP the loop returns SKIP and expands nothing further |
| YamlTags.TemplateCases | homeassistant_gitops/rootfs/app/gitops_bridge/yaml_tags.py:191-233 | a template tag gives SKIP when no file matches or any file gives SKIP, and otherwise combines the files' expansions |
| YamlTags.CombineCases | homeassistant_gitops/rootfs/app/gitops_bridge/yaml_tags.py:218-233 | one file's data is returned as it is; several lists are concatenated, several dicts deep-merged in candidate order, and mixed shapes give SKIP |
| YamlTags.UnknownTagKept | homeassistant_gitops/rootfs/app/gitops_bridge/yaml_tags.py:332-370 | an unknown tag keeps its tag and line; a list payload loses its SKIP entries in order and a dict payload maps each key to its value's expansion |
| YamlTags.DepthCap | homeassistant_gitops/rootfs/app/gitops_bridge/yaml_tags.py:183-185 | past depth 20 the value comes back unchanged with exactly one warning |
| YamlTags.HaIncludeErrors | homeassistant_gitops/rootfs/app/gitops_bridge/yaml_tags.py:235-330 | a blank or non-string include argument, or a path leaving the config directory, gives SKIP; a missing directory gives `[]` for the list forms and `{}` for the named forms |
| YamlTags.MergeListIsFlatten | homeassistant_gitops/rootfs/app/gitops_bridge/yaml_tags.py:280-302 | `!include_dir_merge_list` concatenates the children's lists, appends non-list non-null children and skips SKIP, in order |
| YamlTags.MergeListFlattens | homeassistant_gitops/rootfs/app/gitops_bridge/yaml_tags.py:280-302 | an element is in the merged list exactly when it comes from some child's part |
| YamlTags.ExpandIncludes | homeassistant_gitops/rootfs/app/gitops_bridge/yaml_tags.py:164-404 | the imperative `expand_includes`, with its per-child loops and shared warning list, computes `Expand` |
| YamlTags.ExpandTemplateTag | homeassistant_gitops/rootfs/app/gitops_bridge/yaml_tags.py:191-233 | the template branch computes `ExpandTemplate` |
| YamlTags.ExpandCandidateFiles | homeassistant_gitops/rootfs/app/gitops_bridge/yaml_tags.py:204-217 | the candidates loop computes `ExpandCandidates` |
| YamlTags.CombineExpanded | homeassistant_gitops/rootfs/app/gitops_bridge/yaml_tags.py:218-233 | the combining loops compute `CombineTemplate` |
| YamlTags.ExpandHaIncludeTag | homeassistant_gitops/rootfs/app/gitops_bridge/yaml_tags.py:235-330 | the HA include branch computes `ExpandHaInclude` |
| YamlTags.ExpandDirChildren | homeassistant_gitops/rootfs/app/gitops_bridge/yaml_tags.py:259-302 | the child loops of `!include_dir_list` and `!include_dir_merge_list` compute `ExpandDirList` and `ExpandDirMergeList` |
| YamlTags.ExpandDirNamedChildren | homeassistant_gitops/rootfs/app/gitops_bridge/yaml_tags.py:304-330 | the child loop of the named forms computes `ExpandDirNamed` |
| YamlTags.ExpandDict | homeassistant_gitops/rootfs/app/gitops_bridge/yaml_tags.py:372-387 | the dict loop computes `ExpandEntries` |
| YamlTags.ExpandList | homeassistant_gitops/rootfs/app/gitops_bridge/yaml_tags.py:388-403 | the list loop computes `ExpandItems` |
| YamlTags.GroupCandidatesHas | homeassistant_gitops/rootfs/app/gitops_bridge/yaml_tags.py:407-431 | a state is kept exactly when it is a dict whose `entity_id` is a dotted string in an allowed domain and whose `attributes.entity_id` is a list |
| YamlTags.GroupCandidatesAll | homeassistant_gitops/rootfs/app/gitops_bridge/yaml_tags.py:407-431 | when every state passes, all come back in order |
| YamlTags.StateGroupCandidates | homeassistant_gitops/rootfs/app/gitops_bridge/yaml_tags.py:407-431 | the loop computes `GroupCandidates`, which keeps the original order |
| YamlWrites.WriteYamlShape | homeassistant_gitops/rootfs/app/gitops_bridge/yaml_modules.py:791-801 | `_write_yaml` reports a change exactly when the rendered text differs from the file's current text (a missing file reads as ""); on disk the path then reads as the rendered text and no other path changes; in preview mode the disk is untouched and the preview gains the rendered text only for a changed file |
| YamlWrites.WriteYamlIdempotent | homeassistant_gitops/rootfs/app/gitops_bridge/yaml_modules.py:791-801 | writing the same data a second time changes nothing and reports no change |
| YamlWrites.WriteDomainYamlShape | homeassistant_gitops/rootfs/app/gitops_bridge/yaml_modules.py:812-824 | an empty payload deletes the domain file, reporting a change exactly when the file existed (in preview mode it records the empty text instead and leaves the disk alone); any other payload is written as `_write_yaml` writes it |
| YamlWrites.WriteTextShape | homeassistant_gitops/rootfs/app/gitops_bridge/yaml_modules.py:827-836 | `_write_text` always reports a change in preview mode and records the content; on disk it reports a change exactly when the content differs, and the path reads as the content afterwards |
| YamlWrites.WriteModulesTexts | homeassistant_gitops/rootfs/app/gitops_bridge/yaml_modules.py:1364-1369 | after the module-file loop on disk every readable module file reads as its rendered payload and every other path as before; in preview mode the disk is as it was |
| YamlWrites.DesiredAbsent | homeassistant_gitops/rootfs/app/gitops_bridge/yaml_modules.py:1364-1369 | a path the loop never visits gets no payload |
| YamlWrites.WriteModulesChanged | homeassistant_gitops/rootfs/app/gitops_bridge/yaml_modules.py:1364-1369 | a path is listed in `changed_files` exactly when it is a readable module file whose rendered payload differs from its text before the run |
| YamlWrites.WriteModulesPreview | homeassistant_gitops/rootfs/app/gitops_bridge/yaml_modules.py:1364-1369 | in preview mode the preview ends up holding the rendered payload of every changed module file and nothing new for the others |
| YamlWrites.DesiredAt | homeassistant_gitops/rootfs/app/gitops_bridge/yaml_modules.py:1364-1367 | the payload written to a module file is the sync's payload for that file, and none for a file listed as invalid |
| YamlWrites.SyncModuleFilesWritten | homeassistant_gitops/rootfs/app/gitops_bridge/yaml_modules.py:1364-1369 | on disk, every module file the sync decided to write reads afterwards as its rendered payload |
| YamlWrites.WriteModuleFiles | homeassistant_gitops/rootfs/app/gitops_bridge/yaml_modules.py:1364-1369 | the loop over `desired_items_by_file` returns exactly the changed files and file state that the fold `WriteModules` specifies |
| ModuleDomains.RegistryShape | homeassistant_gitops/rootfs/app/gitops_bridge/yaml_modules.py:67-142 | the six registered domains have distinct keys, package file names and domain files; an id is generated exactly for the domains with an id field; no domain is called `helpers` or uses `helpers.yaml` |
| ModuleDomains.FindSpec | homeassistant_gitops/rootfs/app/gitops_bridge/yaml_modules.py:3631-3642 | the lookup loops return the first spec whose field matches, and nothing exactly when none matches |
| ModuleDomains.SpecByKey | homeassistant_gitops/rootfs/app/gitops_bridge/yaml_modules.py:3631-3635 | `_spec_by_key` returns a registered domain with that key, and nothing exactly when no domain has it |
| ModuleDomains.SpecByPackageFilename | homeassistant_gitops/rootfs/app/gitops_bridge/yaml_modules.py:3638-3642 | `_spec_by_package_filename` returns a registered domain with that package file name, and nothing exactly when none has it |
| ModuleDomains.DetectedOf | homeassistant_gitops/rootfs/app/gitops_bridge/yaml_modules.py:150-161 | a domain is detected on a lower-cased path exactly when the path ends with its domain file or starts with its module folder |
| ModuleDomains.HelpersOfPath | homeassistant_gitops/rootfs/app/gitops_bridge/yaml_modules.py:162-164 | a helper type is reported exactly when the lower-cased path ends with `<type>.yaml` |
| ModuleDomains.DomainsOfPathKnown | homeassistant_gitops/rootfs/app/gitops_bridge/yaml_modules.py:145-165 | every domain `list_changed_domains` reports is a registry key or a helper type |
| ModuleDomains.ChangedDomains | homeassistant_gitops/rootfs/app/gitops_bridge/yaml_modules.py:145-165 | a domain is reported exactly when some path touches it |
| ModuleDomains.ListChangedDomains | homeassistant_gitops/rootfs/app/gitops_bridge/yaml_modules.py:145-165 | the loop over the paths returns exactly `ChangedDomains` |
| ModuleDomains.AddDetected | homeassistant_gitops/rootfs/app/gitops_bridge/yaml_modules.py:150-161 | the six domain tests on one path add exactly the detected domains |
| ModuleDomains.AddHelpers | homeassistant_gitops/rootfs/app/gitops_bridge/yaml_modules.py:162-164 | the loop over the helper types adds exactly the helper types the path ends with |
| ModuleDomains.ShouldSyncYamlModules | homeassistant_gitops/rootfs/app/gitops_bridge/yaml_modules.py:168-198 | `should_sync_yaml_modules` is true exactly when some path starts with a module prefix, ends with a domain file or ends with a helper type's file |
| ModuleDomains.DetectorsTrigger | homeassistant_gitops/rootfs/app/gitops_bridge/yaml_modules.py:150-186 | each domain test's file name is one of the sync-triggering domain files and its folder one of the module prefixes |
| ModuleDomains.DetectorsKeys | homeassistant_gitops/rootfs/app/gitops_bridge/yaml_modules.py:67-161 | each domain test reports the key of the registered domain in the same position |
| ModuleDomains.ChangedDomainTriggersSync | homeassistant_gitops/rootfs/app/gitops_bridge/yaml_modules.py:145-198 | whenever a path touches a domain it also calls for a sync |
| ModuleDomains.PackageFileSyncsWithoutDomain | homeassistant_gitops/rootfs/app/gitops_bridge/yaml_modules.py:145-198 | the converse fails: `packages/a.yaml` calls for a sync yet touches no domain |

## Left out

- Text.Lower, Text.Strip, Text.IsAlnumChar and Text.IsDigitChar cover the ASCII range only. Python's `str.lower`, `str.strip`, `isalnum` and `isdigit` are Unicode-aware, and that is not modelled because Dafny strings have no Unicode tables. Everything built on them inherits the restriction, including ItemIds.SanitizeLovelacePath, Groups.NormalizedObjectId, AutomationIdSpike.SanitizedLabel and ConfigStore's `_parse_bool`.
- Text.SplitLines models `str.splitlines()` with `\n` as the only line boundary. Python also breaks at `\r`, `\r\n`, `\v`, `\f`, `\x1c`-`\x1e`, `\x85`, `\u2028` and `\u2029`. This affects:
  - GitOps.TruncateDiff. `_truncate_diff("a\r\nb\r\n", 1)` gives `("a\n", True, 2)` in Python but `("a\r\n", True, 2)` in the model. `"a\rb\n"` with a limit of 1 has 2 lines in Python and is truncated; the model counts 1 line and leaves it whole.
  - The git output parsers GitOps.CheckIgnore, GitOps.CommitChangesOf and GitOps.GitCommitChanges.
  - The line-based loaders ConfigStore.LoadGitopsConfig and GitignoreOps.LoadGitignorePatterns, and `ensure_gitignore` (GitignoreOps.EnsureGitignore).

  The model is exact for text whose only line breaks are `\n`, which is what git prints and what the bridge writes.
- Yaml.Value has no floats, and its map keys are strings only. YAML floats and non-string keys (ints, bools, `null`) are not modelled. Fingerprints and merges over such data are therefore not covered.
- Paths are resolved lexically, the way `Paths` does it: `.` and `..` are collapsed and symbolic links are not followed. With two guards in front, a relative path without `..` or a leading `/` can never resolve outside `/config`. So the source's "must stay within the config directory" refusals are unreachable in the model, which the model states rather than leaves out:
  - AutomationIdSpike.NoEscape (`_resolve_paths`);
  - CrudPaths.ResolveModulePath;
  - GitOps.NormalizeRepoPath.
  A symlink pointing out of the config directory would reach those branches in the source.
- YamlTags.Message words its warnings with config-relative paths. The source formats `base_path.as_posix()`, the absolute path. The files the expander reads are keyed by config-relative path, and the absolute prefix is always the config directory.
- YamlWrites models writing a file as an update of a map from paths to texts, with the changed flag and the recorded preview. The real writes go through `Path.write_text`, `unlink` and `mkdir(parents=True)`. The run's `changed_files` list is not collected across domains: each write reports its own changed flag instead.
- Loading YAML (`yaml.safe_load` through the bridge's loader) is abstracted as `YamlTags.FileContent`: parsed data, a blank file, or an invalid file with its error message. Rendering (`yaml_dump`) is a parameter `render: Value -> string` (YamlWrites, SyncOutput). Neither codec itself is modelled.
- The hashes (`file_hash`, `modules_hash`, `hash_text`, and the sha256-of-JSON inside `_fingerprint`) are one uninterpreted function `H` (Fingerprints, ModuleItems, Preference). `fnmatch` is a parameter of GitignoreOps. Diffs made by `difflib` (`_build_template_diff`, `_build_preview_diff`) are opaque text.
- Real filesystem operations (globbing, directory listing, `Path.resolve`, `.storage` reads) are inputs: `YamlTags.Fs` gives file contents, sorted directory children and sorted glob matches.
- CrudPaths.OneOffDestination: when `one_off_filename` is present but not a string, the source passes it to `_ensure_yaml_filename` (yaml_modules.py:3405-3409), which fails with a Python `TypeError` or `AttributeError` rather than a `ValueError` message. The model has no crash value, so it returns the error "One-off filename must be a string." there instead.
- The `operate_module_items` orchestration is not modelled. It wires selection, removal, destination resolution and append together, then writes and syncs. Its parts are modelled separately in ItemRemoval, CrudPaths and ItemAppend.
- ItemRemoval.Selector keeps only the four selector fields the bridge reads (`id`, `fingerprint`, `key`, `helper_type`). Other request fields are ignored, as the source ignores them.
- ItemAppend reports `dict(item)` on a non-map item as the error DataNotAMap ("Item data is not a map."). Python's `dict()` would raise a TypeError or ValueError with its own text, or accept a list of pairs. In the model the items come from the corrected removal, whose records carry map entries.
- The migration of the legacy unassigned files (`automations/automations.unassigned.yaml`, `helpers/helpers.unassigned.yaml`) into `packages/unassigned/` is not modelled. It is a one-off file move (yaml_modules.py:305-406). The model uses the current location, as the code does.
- The domain-level drivers of the four syncs are not modelled as single members: the `preview`/`write_modules` flags threading, warning collection and state bookkeeping of `_sync_list_domain` and its copies. Their steps are modelled in SyncIndex, SyncChoose, SyncOutput, YamlWrites and Preference.
- ReconcileIds does not model the branch for a domain spec without an id field. It cannot occur: `reconcile_automation_ids` runs with the automation spec only, whose id field is `id`.
- TemplateDiffs does not model the "template outside the config directory" skip of `_write_template_diffs`. Edits name only templates that the expander found inside the config directory (every other match is refused with a warning). The model keeps them as config-relative paths, so the skip cannot fire.
- GitOps.MakeChange returns an error for a one-letter status. The source reads `status[1]` there and raises IndexError.
- Exports.ExportedEntityRows and Exports.ExportedGroupRows state that the rows are sorted by the source's key and are a permutation of the rows built. The stability of Python's `sorted` is proved once, for Text.SortBy, and not restated per export.
- ConfigStore.BackslashGrows records a behaviour of the source, not a deviation. `_quote_yaml` doubles a backslash but `load_gitops_config` does not undo it, so each save of a value holding `\` makes it longer.
- The HTTP and async parts of groups.py and exports.py are not modelled: `_ha_get_json`, `_fetch_*`, `list_unmanaged_groups`, `assert_no_unmanaged_group_collision`, `import_group` and the CSV writer. They are network calls, and the registries and states are inputs instead.
- `run_git` and every git command wrapper are not modelled. Only the parsers of their captured output and exit codes are. The `OPTIONS = load_options()` singleton and the git config calls of config_store.py are process state and subprocesses, and are not modelled either.
- The PyYAML glue of yaml_tags.py (`GitopsYamlLoader`/`Dumper`, `_construct_tagged`, `_represent_tagged`) is not modelled. `TaggedValue` is the datatype constructor `Yaml.Tagged`.
- api.py, watchers.py, ssh_ops.py, ha_services.py, cli_installer.py, settings.py, main.py and fs_utils.py are not part of this model:
  - HTTP routes and asyncio polling and debouncing;
  - subprocesses;
  - fixed literals written to disk;
  - process bootstrap;
  - hashing and YAML wrappers, which the model takes as parameters.

## Findings

| source | as written | input that shows it | evidently intended | confidence | as-written member | corrected member |
|---|---|---|---|---|---|---|
| homeassistant_gitops/rootfs/app/gitops_bridge/yaml_modules.py:3438-3454 | `_resolve_destination_path` refuses only the reserved package name `unassigned`. Any other name is joined below `packages/`, including one made of `..` parts. | a move of an automation to `{"package_name": "../.."}`: the destination is `/config/packages/../../automation.yaml`, which resolves to `/automation.yaml`, outside the config directory | a package name is a single folder below `packages/`, and a name that is absolute or holds `..` is refused | not executed | CrudPaths.PackageNameEscapes | CrudPaths.SafeDestinationInside |
| homeassistant_gitops/rootfs/app/gitops_bridge/yaml_modules.py:3137-3151 | `_remove_list_items` applies the index returned by `_select_list_item_flexible` to the raw list. That index is a position among the parsed items, which hold only the map entries. | the automations list `[1, {id: a}]` with a selector for id `a`: the record carries `1` and `1` is popped, while the automation stays | the selected item's own entry is recorded and removed | not executed | ItemRemoval.AsWrittenRemovesWrongEntry | ItemRemoval.RemovalRemovesSelected |
| homeassistant_gitops/rootfs/app/gitops_bridge/yaml_modules.py:3250-3266 | `_remove_lovelace_items` has the same slip as `_remove_list_items`: it records and pops `views[idx]`, where `idx` is a position among the parsed views, which skip entries that are not maps. | the lovelace views `[1, {path: a}]` with a selector for path `a`: the record carries `1` and `1` is popped, while the view `a` stays | the selected view itself is recorded and removed | not executed | ItemRemoval.AsWrittenLovelaceRemovesWrongView | ItemRemoval.LovelaceRemoval |
