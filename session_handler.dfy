/**
 * What every session handler shares: the merged configuration, the storage
 * key of a session ID, PHP's truthiness test on the held ID, and the promise
 * of `checkSession` that each backend's class keeps.
 */
module HandlerBase {
  import opened Wrappers

  // ---------------------------------------------------------------------
  // Configuration
  // ---------------------------------------------------------------------

  /** A configuration value: a PHP scalar, `null`, or a nested array. */
  datatype Setting =
    | Text(text: string)
    | Number(number: int)
    | Flag(flag: bool)
    | Null
    | Group(entries: map<string, Setting>)

  /** A configuration array keyed by option name. */
  type Options = map<string, Setting>

  /**
   * Every key of `repl` is present in `r` and carries `repl`'s value; where
   * both are arrays this holds again one level down.
   */
  ghost predicate Overrides(r: Setting, repl: Setting)
    decreases repl
  {
    if repl.Group? then
      r.Group? &&
      forall k :: k in repl.entries ==> k in r.entries && Overrides(r.entries[k], repl.entries[k])
    else
      r == repl
  }

  lemma {:induction false} OverridesItself(s: Setting)
    ensures Overrides(s, s)
    decreases s
  {
    if s.Group? {
      forall k | k in s.entries
        ensures Overrides(s.entries[k], s.entries[k])
      {
        OverridesItself(s.entries[k]);
      }
    }
  }

  /**
   * PHP's `array_replace_recursive` on one value: a replacement array is
   * merged key by key into a base array; any other replacement value
   * replaces the base value outright.
   */
  function Replace(base: Setting, repl: Setting): (r: Setting)
    ensures Overrides(r, repl)
    ensures repl.Group? && base.Group? ==>
              r.Group? && r.entries.Keys == base.entries.Keys + repl.entries.Keys &&
              forall k :: k in base.entries && k !in repl.entries ==> r.entries[k] == base.entries[k]
    ensures !(repl.Group? && base.Group?) ==> r == repl
    decreases repl
  {
    if base.Group? && repl.Group? then
      var merged := map k | k in base.entries.Keys + repl.entries.Keys ::
        if k !in repl.entries then base.entries[k]
        else if k in base.entries then Replace(base.entries[k], repl.entries[k])
        else repl.entries[k];
      assert forall k :: k in repl.entries ==> Overrides(merged[k], repl.entries[k]) by {
        forall k | k in repl.entries
          ensures Overrides(merged[k], repl.entries[k])
        {
          if k !in base.entries {
            OverridesItself(repl.entries[k]);
          }
        }
      }
      Group(merged)
    else
      OverridesItself(repl);
      repl
  }

  /** `array_replace_recursive($base, $repl)` on two configuration arrays. */
  function ReplaceRecursive(base: Options, repl: Options): (r: Options)
    ensures r.Keys == base.Keys + repl.Keys
    ensures forall k :: k in base && k !in repl ==> r[k] == base[k]
    ensures forall k :: k in repl ==> Overrides(r[k], repl[k])
    ensures forall k :: k in repl && !repl[k].Group? ==> r[k] == repl[k]
  {
    Replace(Group(base), Group(repl)).entries
  }

  /** The defaults of the abstract handler, which every backend inherits. */
  const BaseDefaults: Options := map["prefix" := Text(""), "expires" := Number(3600)]

  /**
   * The handler's configuration: the caller's options over the backend's
   * defaults over the base defaults.
   */
  function MergeConfig(defaults: Options, options: Options): (config: Options)
    ensures config.Keys == BaseDefaults.Keys + defaults.Keys + options.Keys
    ensures forall k :: k in options && !options[k].Group? ==> config[k] == options[k]
    ensures forall k :: k in options ==> Overrides(config[k], options[k])
    ensures forall k :: k !in options && k in defaults ==> config[k] == defaults[k]
    ensures forall k :: k !in options && k !in defaults && k in BaseDefaults ==>
              config[k] == BaseDefaults[k]
  {
    var inherited := ReplaceRecursive(BaseDefaults, defaults);
    assert forall k :: k in defaults ==> inherited[k] == defaults[k] by {
      forall k | k in defaults
        ensures inherited[k] == defaults[k]
      {
        assert k in BaseDefaults ==> !BaseDefaults[k].Group?;
      }
    }
    ReplaceRecursive(inherited, options)
  }

  /** The prefix and expiry options, when given, have the types the handlers use. */
  predicate Typed(options: Options) {
    && ("prefix" in options ==> options["prefix"].Text?)
    && ("expires" in options ==> options["expires"].Number?)
  }

  /** The key prefix of a merged configuration (which, by `MergedSettings`, always has one). */
  function PrefixOf(config: Options): string {
    if "prefix" in config && config["prefix"].Text? then config["prefix"].text else ""
  }

  /** The expiry, in seconds, of a merged configuration (which, by `MergedSettings`, always has one). */
  function ExpiresOf(config: Options): int {
    if "expires" in config && config["expires"].Number? then config["expires"].number else 3600
  }

  /**
   * A merged configuration always holds a string prefix and an integer
   * expiry: the caller's if given, else the backend's, else `''` and 3600.
   */
  lemma MergedSettings(defaults: Options, options: Options)
    requires Typed(defaults) && Typed(options)
    ensures var config := MergeConfig(defaults, options);
      && Typed(config) && "prefix" in config && "expires" in config
      && PrefixOf(config) == (if "prefix" in options then options["prefix"].text
                              else if "prefix" in defaults then defaults["prefix"].text
                              else "")
      && ExpiresOf(config) == (if "expires" in options then options["expires"].number
                               else if "expires" in defaults then defaults["expires"].number
                               else 3600)
  {
  }

  // ---------------------------------------------------------------------
  // Keys
  // ---------------------------------------------------------------------

  /** `prepareKey`: the storage key of a session ID. */
  function PrepareKey(prefix: string, id: string): (key: string)
    ensures |key| == |prefix| + |id|
    ensures key[..|prefix|] == prefix && key[|prefix|..] == id
  {
    prefix + id
  }

  /** The key of the sibling lock entry that the key-value backends use. */
  function LockKey(prefix: string, id: string): (key: string)
    ensures |key| == |prefix| + |id| + 5
    ensures key[..|prefix| + |id|] == PrepareKey(prefix, id)
    ensures key[|prefix| + |id|..] == ":lock"
  {
    PrepareKey(prefix, id) + ":lock"
  }

  /** Two session IDs under one prefix never share a storage key. */
  lemma PrepareKeyInjective(prefix: string, a: string, b: string)
    requires PrepareKey(prefix, a) == PrepareKey(prefix, b)
    ensures a == b
  {
    assert a == PrepareKey(prefix, a)[|prefix|..];
  }

  /**
   * The characters of a PHP session ID at 6 bits per character
   * (`0-9`, `a-z`, `A-Z`, `,` and `-`).
   */
  predicate SessionIdChar(c: char) {
    ('0' <= c <= '9') || ('a' <= c <= 'z') || ('A' <= c <= 'Z') || c == ',' || c == '-'
  }

  predicate WellFormedId(id: string) {
    forall i :: 0 <= i < |id| ==> SessionIdChar(id[i])
  }

  /**
   * A lock key is never the data key of a well-formed session ID, so lock
   * entries and session data share one key space without colliding.
   */
  lemma LockKeyIsNotADataKey(prefix: string, id: string, other: string)
    requires WellFormedId(other)
    ensures LockKey(prefix, id) != PrepareKey(prefix, other)
  {
    if |other| == |id| + 5 {
      var i := |prefix| + |id|;
      assert PrepareKey(prefix, other)[i] == other[|id|];
      assert LockKey(prefix, id)[i] == ':';
      assert SessionIdChar(other[|id|]);
    }
  }

  // ---------------------------------------------------------------------
  // The held session ID
  // ---------------------------------------------------------------------

  /** PHP's truthiness of a string: `''` and `'0'` are false, every other string is true. */
  predicate Truthy(s: string) {
    s != "" && s != "0"
  }

  /**
   * PHP's truthiness of the held ID as `releaseLock` tests it: `null`, `''`
   * and `'0'` all read as "nothing held".
   */
  predicate Holds(held: Option<string>) {
    held.Some? && Truthy(held.value)
  }

  /**
   * The promise of `checkSession(id)` on every backend: asking for the ID
   * already held succeeds and changes nothing; any other success leaves
   * exactly `id` held.
   */
  ghost predicate CheckSessionOutcome(before: Option<string>, id: string, ok: bool, after: Option<string>) {
    && (before == Some(id) ==> ok && after == before)
    && (before != Some(id) && ok ==> after == Some(id))
  }
}
