/**
 * Which side wins when YAML Modules reconciles one domain (yaml_modules.py): the module files,
 * the domain file, or both ("mixed"), decided from the hashes stored after the previous run;
 * and which of the two sides a run may write.
 */
module Preference {
  import opened Wrappers

  datatype Preference = PreferModules | PreferDomain | PreferMixed

  /** The name the source uses for each preference. */
  function Name(p: Preference): (r: string)
    ensures r in {"modules", "domain", "mixed"}
  {
    match p
    case PreferModules => "modules"
    case PreferDomain => "domain"
    case PreferMixed => "mixed"
  }

  /** The preference a name stands for, if any. */
  function Parse(s: string): (r: Option<Preference>)
    ensures r.Some? <==> s in {"modules", "domain", "mixed"}
    ensures r.Some? ==> Name(r.value) == s
  {
    if s == "modules" then Some(PreferModules)
    else if s == "domain" then Some(PreferDomain)
    else if s == "mixed" then Some(PreferMixed)
    else None
  }

  /** Names and preferences correspond one to one. */
  lemma ParseName(p: Preference)
    ensures Parse(Name(p)) == Some(p)
  {
  }

  /**
   * `_decide_preference`. Without stored state the module files win when there are any, else
   * an existing domain file; with stored state the side that changed wins, both changed is
   * mixed, and nothing changed keeps the modules.
   */
  function DecidePreference(hasState: bool, domainChanged: bool, modulesChanged: bool,
                            domainExists: bool, modulesExist: bool): (r: Preference)
    ensures !hasState ==> r != PreferMixed && (r == PreferDomain <==> !modulesExist && domainExists)
    ensures hasState ==> (r == PreferDomain <==> domainChanged && !modulesChanged)
    ensures hasState ==> (r == PreferMixed <==> domainChanged && modulesChanged)
    ensures hasState ==> (r == PreferModules <==> !domainChanged)
  {
    if !hasState then
      if modulesExist then PreferModules
      else if domainExists then PreferDomain
      else PreferModules
    else if domainChanged && !modulesChanged then PreferDomain
    else if modulesChanged && !domainChanged then PreferModules
    else if domainChanged && modulesChanged then PreferMixed
    else PreferModules
  }

  /** `_resolve_preference`: an override, when given, must name a preference and replaces the computed one. */
  function ResolvePreference(override: Option<string>, computed: Preference): (r: Result<Preference>)
    ensures override.None? ==> r == Ok(computed)
    ensures override.Some? ==> (r.Ok? <==> override.value in {"modules", "domain", "mixed"})
    ensures override.Some? && r.Ok? ==> Name(r.value) == override.value
  {
    if override.None? then Ok(computed)
    else match Parse(override.value)
      case None => Err("Unsupported preference override.")
      case Some(p) => Ok(p)
  }

  /** `_should_write_target`: `all` writes both sides, `domain` and `modules` only their own. */
  function ShouldWriteTarget(writeMode: string, target: string): (r: Result<bool>)
    ensures r.Ok? <==> writeMode in {"all", "domain", "modules"}
    ensures writeMode == "all" ==> r == Ok(true)
    ensures writeMode in {"domain", "modules"} ==> r == Ok(target == writeMode)
  {
    if writeMode == "all" then Ok(true)
    else if writeMode == "domain" then Ok(target == "domain")
    else if writeMode == "modules" then Ok(target == "modules")
    else Err("Unsupported write mode.")
  }

  /** A single-side write mode writes exactly one of the two sides. */
  lemma OneSideWritten(writeMode: string)
    requires writeMode in {"domain", "modules"}
    ensures ShouldWriteTarget(writeMode, "modules").Ok? && ShouldWriteTarget(writeMode, "domain").Ok?
    ensures ShouldWriteTarget(writeMode, "modules").value != ShouldWriteTarget(writeMode, "domain").value
  {
  }

  /** The hashes stored for a domain after a run (`state["domains"][key]`); None when absent. */
  datatype Stored = Stored(domainHash: Option<string>, modulesHash: Option<string>)

  /** The change flags of `_sync_*`, taken before the preference is decided: what differs from the stored hashes. */
  datatype Changes = Changes(hasState: bool, domainChanged: bool, modulesChanged: bool)

  function ChangesSince(stored: Stored, domainHash: string, modulesHash: string,
                        domainValid: bool, domainInjected: bool, modulesInjected: bool): (r: Changes)
    ensures r.hasState <==> stored != Stored(None, None)
    ensures r.domainChanged <==> domainValid && (domainInjected || stored.domainHash != Some(domainHash))
    ensures r.modulesChanged <==> modulesInjected || stored.modulesHash != Some(modulesHash)
  {
    var hasState := stored.domainHash.Some? || stored.modulesHash.Some?;
    var domainChanged := domainValid && (domainInjected || stored.domainHash != Some(domainHash));
    var modulesChanged := modulesInjected || stored.modulesHash != Some(modulesHash);
    Changes(hasState, domainChanged, modulesChanged)
  }

  /** The preference a run computes before any override (`_decide_preference` on the change flags). */
  function ComputedPreference(stored: Stored, domainHash: string, modulesHash: string, domainValid: bool,
                              domainInjected: bool, modulesInjected: bool, domainExists: bool,
                              modulesExist: bool): (r: Preference)
    ensures stored == Stored(None, None) ==> r != PreferMixed
  {
    var c := ChangesSince(stored, domainHash, modulesHash, domainValid, domainInjected, modulesInjected);
    DecidePreference(c.hasState, c.domainChanged, c.modulesChanged, domainExists && domainValid, modulesExist)
  }

  /**
   * After a run has stored the current hashes at the end of `_sync_*`, a run over unchanged files with no
   * id injected keeps the modules: nothing is taken back from the domain file.
   */
  lemma UnchangedKeepsModules(domainHash: string, modulesHash: string, domainValid: bool,
                              domainExists: bool, modulesExist: bool)
    ensures ComputedPreference(Stored(Some(domainHash), Some(modulesHash)), domainHash, modulesHash,
                               domainValid, false, false, domainExists, modulesExist) == PreferModules
  {
  }

  /** Editing only the domain file after a run makes the domain win the next one. */
  lemma DomainEditWins(domainHash: string, modulesHash: string, newDomainHash: string,
                       domainExists: bool, modulesExist: bool)
    requires newDomainHash != domainHash
    ensures ComputedPreference(Stored(Some(domainHash), Some(modulesHash)), newDomainHash, modulesHash,
                               true, false, false, domainExists, modulesExist) == PreferDomain
  {
  }

  /** An invalid domain file never counts as changed, so it can never make the domain win. */
  lemma InvalidDomainNeverWins(stored: Stored, domainHash: string, modulesHash: string, domainInjected: bool,
                               modulesInjected: bool, domainExists: bool, modulesExist: bool)
    ensures ComputedPreference(stored, domainHash, modulesHash, false, domainInjected, modulesInjected,
                               domainExists, modulesExist) == PreferModules
  {
  }
}
