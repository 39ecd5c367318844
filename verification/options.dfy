/** The plugin's options and how `obfuscatorPlugin` fills in the missing ones with
    JavaScript's `||` fallback. */
module Options {
  import opened Text

  /** An exclusion rule: a plain string (tested as a substring and as a glob) or a
      regular expression, identified by its whole literal: pattern and flags together, so
      that `/c\.js$/` and `/c\.js$/i` are different rules. */
  datatype Rule = Literal(text: string) | Regex(literal: string)

  /** The options forwarded to the obfuscation library. Their contents are opaque to the
      plugin: either the built-in preset or whatever the caller supplied. */
  datatype ObfuscatorConfig = DefaultPreset | Supplied(settings: seq<(string, string)>)

  /** `ObfuscatorPluginOptions`: every field may be left out. */
  datatype PluginOptions = PluginOptions(
    rootDir: Option<string>,
    exclude: Option<seq<Rule>>,
    obfuscatorOptions: Option<ObfuscatorConfig>)

  /** The settings the plugin actually runs with. */
  datatype Config = Config(rootDir: string, exclude: seq<Rule>, obfuscatorOptions: ObfuscatorConfig)

  const DefaultRootDir: string := "dist/assets"

  /** The object used when `obfuscatorPlugin` is called without an argument. */
  const DefaultOptions: PluginOptions :=
    PluginOptions(Some(DefaultRootDir), Some([]), Some(DefaultPreset))

  /** JavaScript truthiness of an optional string: absent and "" are both falsy. */
  predicate StringTruthy(s: Option<string>)
  {
    s.Some? && s.value != ""
  }

  /** Destructures the options (the default object when none are given) and applies
      `x || default` to each field. */
  function Resolve(options: Option<PluginOptions>): (c: Config)
    ensures c.rootDir != ""
    ensures options.None? ==> c == Config(DefaultRootDir, [], DefaultPreset)
    ensures options.Some? && StringTruthy(options.value.rootDir) ==> c.rootDir == options.value.rootDir.value
    ensures options.Some? && !StringTruthy(options.value.rootDir) ==> c.rootDir == DefaultRootDir
    ensures options.Some? && options.value.exclude.Some? ==> c.exclude == options.value.exclude.value
    ensures options.Some? && options.value.exclude.None? ==> c.exclude == []
    ensures options.Some? && options.value.obfuscatorOptions.Some? ==>
              c.obfuscatorOptions == options.value.obfuscatorOptions.value
    ensures options.Some? && options.value.obfuscatorOptions.None? ==> c.obfuscatorOptions == DefaultPreset
  {
    var o := if options.Some? then options.value else DefaultOptions;
    Config(
      if StringTruthy(o.rootDir) then o.rootDir.value else DefaultRootDir,
      if o.exclude.Some? then o.exclude.value else [],
      if o.obfuscatorOptions.Some? then o.obfuscatorOptions.value else DefaultPreset)
  }

  /** Turns resolved settings back into a fully specified options object. */
  function AsOptions(c: Config): PluginOptions
  {
    PluginOptions(Some(c.rootDir), Some(c.exclude), Some(c.obfuscatorOptions))
  }

  /** Calling the plugin with no argument and with an empty object `{}` behave alike. */
  lemma OmittedEqualsEmpty()
    ensures Resolve(None) == Resolve(Some(PluginOptions(None, None, None)))
  {
  }

  /** Defaulting is idempotent: feeding resolved settings back in changes nothing. */
  lemma ResolveIdempotent(options: Option<PluginOptions>)
    ensures Resolve(Some(AsOptions(Resolve(options)))) == Resolve(options)
  {
  }
}
