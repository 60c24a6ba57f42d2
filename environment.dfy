/** The deployment environment of the app: which of three fixed API hosts it
    talks to, and how that choice is read from, and healed in, the settings
    store. */
module Domain {
  import opened Wrappers
  import Settings

  /** The three deployment targets, each identified by its raw string. */
  datatype Environment = Prod | Dev | Stage {

    /** The fixed raw string of the variant; every one is an https URL. */
    function RawValue(): (r: string)
      ensures |r| > |Scheme| && r[..|Scheme|] == Scheme
    {
      match this
      case Prod => "https://api.prod.network"
      case Dev => "https://api.dev01.cloud"
      case Stage => "https://api.stage01.cloud"
    }
  }

  const Scheme: string := "https://"

  /** The settings key under which the environment is persisted. */
  const Key: string := "Environment"

  /** The raw strings that parse to some variant. */
  const RawValues: set<string> := {Prod.RawValue(), Dev.RawValue(), Stage.RawValue()}

  /** `Environment(rawValue:)`: exact-match parsing of a raw string. It
      succeeds exactly on the raw string of a variant, and then gives that
      variant. */
  function FromRawValue(s: string): (r: Option<Environment>)
    ensures r.Some? ==> r.value.RawValue() == s
    ensures r.None? ==> forall e: Environment :: e.RawValue() != s
  {
    if s == Prod.RawValue() then Some(Prod)
    else if s == Dev.RawValue() then Some(Dev)
    else if s == Stage.RawValue() then Some(Stage)
    else None
  }

  /** `baseUrl`: the API base URL of a variant, taken as its raw string. The
      URL alone tells which variant it belongs to. */
  function BaseUrl(e: Environment): (r: string)
    ensures FromRawValue(r) == Some(e)
  {
    e.RawValue()
  }

  /** Parsing a variant's raw string gives back that variant. */
  lemma ParseRawValue(e: Environment)
    ensures FromRawValue(e.RawValue()) == Some(e)
  {
  }

  /** Parsing and rendering are inverse: a string parses to `e` if and only
      if it is the raw string of `e`. */
  lemma ParseIff(s: string, e: Environment)
    ensures FromRawValue(s) == Some(e) <==> s == e.RawValue()
  {
  }

  /** The raw strings are pairwise distinct, so at most one variant matches
      a string, and parsing fails on every string outside `RawValues`. */
  lemma RawValueInjective(a: Environment, b: Environment)
    ensures a.RawValue() == b.RawValue() <==> a == b
  {
  }

  lemma ParseFailsOutsideRawValues(s: string)
    ensures FromRawValue(s).None? <==> s !in RawValues
  {
  }

  /** Distinct variants have distinct base URLs. */
  lemma BaseUrlInjective(a: Environment, b: Environment)
    ensures BaseUrl(a) == BaseUrl(b) <==> a == b
  {
  }

  /** The outcome of resolving: the adopted variant and the store afterwards. */
  datatype Resolution = Resolution(env: Environment, store: map<string, string>)

  /** What `init(defaults:)` computes from the store's contents. Afterwards
      the key always holds the raw string of the adopted variant, and no
      other key has changed. */
  function Resolve(store: map<string, string>): (r: Resolution)
    ensures Key in r.store && r.store[Key] == r.env.RawValue()
    ensures r.store - {Key} == store - {Key}
  {
    if Key in store && FromRawValue(store[Key]).Some? then
      Resolution(FromRawValue(store[Key]).value, store)
    else
      Resolution(Prod, store[Key := Prod.RawValue()])
  }

  /** With no value at the key, the result is `prod` and its raw string is
      written at the key. */
  lemma ResolveMissing(store: map<string, string>)
    requires Key !in store
    ensures Resolve(store) == Resolution(Prod, store[Key := "https://api.prod.network"])
  {
  }

  /** An unrecognised value is overwritten with `prod`'s raw string and
      `prod` is adopted. */
  lemma ResolveUnrecognised(store: map<string, string>)
    requires Key in store && store[Key] !in RawValues
    ensures Resolve(store) == Resolution(Prod, store[Key := Prod.RawValue()])
  {
  }

  /** A value equal to some variant's raw string selects that variant and
      leaves the store as it was. */
  lemma ResolveRecognised(store: map<string, string>, e: Environment)
    requires Key in store && store[Key] == e.RawValue()
    ensures Resolve(store) == Resolution(e, store)
  {
  }

  /** The store is left untouched exactly when it already holds a valid raw
      string at the key. */
  lemma ResolveUnchangedIff(store: map<string, string>)
    ensures Resolve(store).store == store <==> Key in store && store[Key] in RawValues
  {
  }

  /** Resolving a healed store again gives the same variant and changes
      nothing: resolution is idempotent. */
  lemma ResolveIdempotent(store: map<string, string>)
    ensures Resolve(Resolve(store).store) == Resolve(store)
  {
  }

  /** The store after `n` successive resolutions, one per read of the
      setting. */
  function StoreAfter(store: map<string, string>, n: nat): map<string, string>
  {
    if n == 0 then store else Resolve(StoreAfter(store, n - 1)).store
  }

  /** However many times the setting is read, every read after the first
      adopts the variant the first read adopted, and only the first can
      write. */
  lemma {:induction false} LaterReadsAgree(store: map<string, string>, n: nat)
    requires n >= 1
    ensures StoreAfter(store, n) == Resolve(store).store
    ensures Resolve(StoreAfter(store, n - 1)).env == Resolve(store).env
  {
    if n > 1 {
      LaterReadsAgree(store, n - 1);
      ResolveIdempotent(store);
    }
  }

  /** `init(defaults:)`: reads the key, adopts the variant it names, and
      otherwise writes `prod`'s raw string back and adopts `prod`. Both paths
      flush the store. */
  method InitFromDefaults(defaults: Settings.DefaultSettings) returns (env: Environment)
    modifies defaults
    ensures Resolution(env, defaults.values) == Resolve(old(defaults.values))
    ensures Key in defaults.values && defaults.values[Key] == env.RawValue()
    ensures defaults.values - {Key} == old(defaults.values) - {Key}
  {
    var readSettings := defaults.StringForKey(Key);
    var parsed := if readSettings.Some? then FromRawValue(readSettings.value) else None;
    if parsed.None? {
      defaults.Set(Prod.RawValue(), Key);
      defaults.Synchronize();
      env := Prod;
      return;
    }
    env := parsed.value;
    defaults.Synchronize();
  }
}
