/** The agent's copy of its configuration and the Git source it evaluates from it. */
module Agent {
  import opened Text

  /** A Git source definition, still a template or evaluated. */
  type GitSource = string

  type KeyValues = map<string, string>

  /** Where key/values come from: `Neither` is a generator with no alternative set. */
  datatype Generator = Embedded(values: KeyValues) | Reference(files: string) | Neither

  datatype Config = Config(generator: Option<Generator>, definition: GitSource)

  const EMPTY := Config(None, "")

  // ----- The configuration manager -----

  class ConfigManager {
    var config: Config
    var revisionIndex: nat
    /** Every configuration published so far, by revision. */
    ghost var published: seq<Config>

    ghost predicate Valid()
      reads this
    {
      |published| == revisionIndex + 1 && published[revisionIndex] == config
    }

    constructor (loaded: Config)
      ensures Valid() && config == loaded && revisionIndex == 0
    {
      config, revisionIndex, published := loaded, 0, [loaded];
    }

    method OnConfigChange(newConfig: Config)
      requires Valid()
      modifies this
      ensures Valid() && published == old(published) + [newConfig]
    {
      revisionIndex := revisionIndex + 1;
      config := newConfig;
      published := published + [newConfig];
    }

    /** Reloads that happen between two reads of the manager. */
    method Reload(configs: seq<Config>)
      requires Valid()
      modifies this
      ensures Valid() && published == old(published) + configs
    {
      for i := 0 to |configs|
        invariant Valid() && published == old(published) + configs[..i]
      {
        OnConfigChange(configs[i]);
      }
      assert configs[..|configs|] == configs;
    }

    /** Config and revision, read together; copying may fail. */
    method GetConfig(copyOk: bool) returns (c: Config, revision: nat, ok: bool)
      requires Valid()
      ensures ok == copyOk && revision == revisionIndex
      ensures c == if ok then published[revision] else EMPTY
    {
      if !copyOk {
        return EMPTY, revisionIndex, false;
      }
      return config, revisionIndex, true;
    }
  }

  // ----- Key/value sources -----

  predicate HasSource(generator: Option<Generator>) {
    generator.Some? && !generator.value.Neither?
  }

  /** One reading of the key/values, with the source's word on whether they changed. */
  datatype Reading = Reading(values: KeyValues, modified: bool)

  // ----- The syncer -----

  /** The held source: a pointer into the held configuration, or a value of its own. */
  datatype Held = Nothing | Definition | Evaluated(source: GitSource)

  type Evaluator = (GitSource, KeyValues) -> Option<GitSource>

  class AgentSyncer {
    var gitSource: Held
    /** The configuration's generator gave a key/value source, when it was last replaced. */
    var hasSource: bool
    var config: Config
    var configRevision: int
    const evaluate: Evaluator
    /** The key/values last read from the present source. */
    ghost var lastValues: Option<KeyValues>

    constructor (evaluate: Evaluator)
      ensures this.evaluate == evaluate && Initial()
    {
      this.evaluate := evaluate;
      gitSource, hasSource, config, configRevision, lastValues := Nothing, false, EMPTY, -1, None;
    }

    ghost predicate Initial()
      reads this
    {
      gitSource == Nothing && !hasSource && config == EMPTY && configRevision == -1 && lastValues == None
    }

    /** What the held source is worth now. */
    function Source(): GitSource
      reads this
    {
      match gitSource
      case Evaluated(source) => source
      case _ => config.definition
    }

    /** A fresh evaluation: the plain definition without a source or when it fails. */
    function Fresh(c: Config, values: KeyValues): GitSource {
      if !HasSource(c.generator) then c.definition
      else match evaluate(c.definition, values)
        case None => c.definition
        case Some(source) => source
    }

    /** Between evaluations the held source is the fresh evaluation of the held
        configuration with the values last read. */
    ghost predicate Coherent()
      reads this
    {
      || Initial()
      || (configRevision >= 0 && hasSource == HasSource(config.generator)
          && (hasSource ==> lastValues.Some? && Source() == Fresh(config, lastValues.value))
          && (!hasSource ==> gitSource == Definition && lastValues.None?))
    }

    /** Every held configuration is one the manager published under the held revision. */
    ghost predicate Published(manager: ConfigManager)
      reads this, manager
    {
      configRevision >= 0 ==> configRevision < |manager.published| && config == manager.published[configRevision]
    }

    /** A source's word is honest: values it does not call modified are those it gave last. */
    ghost predicate Honest(r: Reading)
      reads this
    {
      lastValues.Some? && !r.modified ==> r.values == lastValues.value
    }

    /** The two reads of the manager are separate; reloads may come between them.  On error
        the held configuration is lost but the revision is kept, so the next call tries
        again. */
    method CheckConfigUpdate(manager: ConfigManager, between: seq<Config>, copyOk: bool) returns (updated: bool)
      requires manager.Valid()
      modifies this`config, this`configRevision, manager
      ensures manager.Valid()
      ensures old(manager.revisionIndex) <= old(configRevision) ==>
        !updated && config == old(config) && configRevision == old(configRevision)
      ensures old(manager.revisionIndex) > old(configRevision) ==> updated == copyOk
      ensures old(manager.revisionIndex) > old(configRevision) ==>
        config == if copyOk then manager.published[manager.revisionIndex] else EMPTY
      ensures configRevision == if updated then manager.revisionIndex else old(configRevision)
      ensures manager.published == old(manager.published)
              + if old(manager.revisionIndex) > old(configRevision) then between else []
    {
      updated := false;
      if manager.revisionIndex > configRevision {
        manager.Reload(between);
        var newRevision;
        config, newRevision, updated := manager.GetConfig(copyOk);
        if updated {
          configRevision := newRevision;
        }
      }
    }

    /** The evaluation starts afresh, or from a coherent state with an honest source. */
    ghost predicate Ready(manager: ConfigManager, reading: Reading)
      reads this, manager
    {
      manager.revisionIndex > configRevision || (Coherent() && Published(manager) && Honest(reading))
    }

    /** With an error-free read, after every evaluation the held source is a fresh
        evaluation of the held configuration with the values just read, the held
        configuration is one the manager published, and it is at least as recent as the
        manager's on entry: no reload is missed.  A failed read loses the configuration but
        not the revision, so the next error-free evaluation starts afresh and restores all
        this. */
    method EvaluateGitSource(manager: ConfigManager, between: seq<Config>, copyOk: bool, reading: Reading)
      requires manager.Valid() && manager as object != this
      modifies this, manager
      ensures manager.Valid() && old(manager.published) <= manager.published
      ensures copyOk && old(Ready(manager, reading)) ==>
        && Coherent() && Published(manager)
        && Source() == (if config.generator.Some? && !config.generator.value.Neither?
                           && evaluate(config.definition, reading.values).Some?
                        then evaluate(config.definition, reading.values).value
                        else config.definition)
      ensures copyOk ==> configRevision >= old(manager.revisionIndex)
      ensures !copyOk && old(manager.revisionIndex) > old(configRevision) ==>
        config == EMPTY && manager.revisionIndex > configRevision
    {
      var generate := false;
      var updated := CheckConfigUpdate(manager, between, copyOk);
      if updated {
        hasSource := HasSource(config.generator);
        lastValues := None;
        generate := true;
      }
      if !hasSource {
        gitSource := Definition;
        return;
      }
      generate := generate || reading.modified;
      lastValues := Some(reading.values);
      if generate {
        match evaluate(config.definition, reading.values) {
          case None => gitSource := Definition;
          case Some(source) => gitSource := Evaluated(source);
        }
      }
    }
  }
}
