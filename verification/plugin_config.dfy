/** The plugin configuration and the required-field check that both plugin
    variants run, in the same order, at the start of `setupPlugin`. */
module PluginConfig {
  import opened Wrappers

  /** The configuration entries the exporter reads. An entry the user left
      unset is `None`. `uploadMegabytes` and `uploadMinutes` are not fields
      here: their `parseInt` results are passed to `IndexJs.SetupPlugin` as
      separate `Option<int>` arguments. */
  datatype Config = Config(
    awsAccessKey: Option<string>,
    awsSecretAccessKey: Option<string>,
    awsRegion: Option<string>,
    s3BucketName: Option<string>,
    prefix: Option<string>,
    compression: Option<string>,
    eventsToIgnore: Option<string>)

  /** The four entries without which setup refuses to start. */
  datatype Field = AccessKey | SecretAccessKey | Region | BucketName

  /** Position of a field in the order the checks run. */
  function Rank(f: Field): nat {
    match f
    case AccessKey => 0
    case SecretAccessKey => 1
    case Region => 2
    case BucketName => 3
  }

  function ValueOf(cfg: Config, f: Field): Option<string> {
    match f
    case AccessKey => cfg.awsAccessKey
    case SecretAccessKey => cfg.awsSecretAccessKey
    case Region => cfg.awsRegion
    case BucketName => cfg.s3BucketName
  }

  /** JavaScript truthiness of a string-valued entry: set and not empty. */
  predicate Truthy(v: Option<string>) {
    v.Some? && v.value != ""
  }

  predicate AllRequiredPresent(cfg: Config) {
    Truthy(cfg.awsAccessKey) && Truthy(cfg.awsSecretAccessKey) && Truthy(cfg.awsRegion) && Truthy(cfg.s3BucketName)
  }

  /** `f` is missing and every field checked before it is present. */
  predicate IsFirstMissing(cfg: Config, f: Field) {
    && !Truthy(ValueOf(cfg, f))
    && forall g: Field :: Rank(g) < Rank(f) ==> Truthy(ValueOf(cfg, g))
  }

  /** The chain of `if (!config.x) throw` checks: the first falsy field in the
      order access key, secret access key, region, bucket name, or `None`
      when all four are set. */
  function FirstMissing(cfg: Config): (r: Option<Field>)
    ensures r.None? <==> AllRequiredPresent(cfg)
    ensures r.None? <==> forall f: Field :: Truthy(ValueOf(cfg, f))
    ensures r.Some? ==> IsFirstMissing(cfg, r.value)
  {
    if !Truthy(cfg.awsAccessKey) then assert !Truthy(ValueOf(cfg, AccessKey)); Some(AccessKey)
    else if !Truthy(cfg.awsSecretAccessKey) then assert !Truthy(ValueOf(cfg, SecretAccessKey)); Some(SecretAccessKey)
    else if !Truthy(cfg.awsRegion) then assert !Truthy(ValueOf(cfg, Region)); Some(Region)
    else if !Truthy(cfg.s3BucketName) then assert !Truthy(ValueOf(cfg, BucketName)); Some(BucketName)
    else None
  }

  /** At most one field is the first missing one, so the error a failed setup
      reports is determined by the configuration. */
  lemma FirstMissingUnique(cfg: Config, f: Field, g: Field)
    requires IsFirstMissing(cfg, f) && IsFirstMissing(cfg, g)
    ensures f == g
  {
  }
}
