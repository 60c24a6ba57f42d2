# Deployment environment resolver

A Dafny model of the `Environment` type of the Core framework: a closed
enumeration of the three API hosts the app can talk to (`prod`, `dev`,
`stage`), each identified by a fixed raw string, and the constructor
`init(defaults:)` that picks the active one from the user-settings store.
The constructor reads the string at the key `"Environment"`; when it is the
raw string of a variant, that variant is adopted and the store is left as it
was; when the key is missing or holds anything else, `prod`'s raw string is
written back at the key and `prod` is adopted. The store therefore heals
itself on the first read, and every later read agrees with the first.

Files:

- `wrappers.dfy`: the optional value returned by a settings read and by
  parsing a raw string.
- `settings.dfy`: the settings store as a class over a `map<string, string>`,
  with the three calls the resolver makes (read, write, flush).
- `environment.dfy`: the variants, their raw strings, parsing, the base URL,
  the resolution as a function of the store's contents, the imperative
  constructor that updates the store in place, and the lemmas about them.

## Model

| member | source | states |
|---|---|---|
| Domain.Environment.RawValue | Core/Domain/Environment.swift:9-12 | every variant's raw string is an `https://` URL |
| Domain.FromRawValue | Core/Domain/Environment.swift:9-12 | exact-match parsing: a success gives the variant whose raw string is the input; a failure means no variant has that raw string |
| Domain.ParseRawValue | Core/Domain/Environment.swift:9-12 | parsing the raw string of `prod`, `dev` or `stage` gives back that variant |
| Domain.ParseIff | Core/Domain/Environment.swift:9-12 | a string parses to a variant if and only if it is that variant's raw string (both directions of the round trip) |
| Domain.RawValueInjective | Core/Domain/Environment.swift:9-12 | the three raw strings are pairwise distinct |
| Domain.ParseFailsOutsideRawValues | Core/Domain/Environment.swift:9-12 | parsing fails exactly on the strings that are none of the three raw strings |
| Domain.BaseUrl | Core/Domain/Environment.swift:15-17 | the base URL is built from the raw string, so parsing it gives back the variant |
| Domain.BaseUrlInjective | Core/Domain/Environment.swift:15-17 | distinct variants have distinct base URLs |
| Domain.Resolve | Core/Domain/Environment.swift:19-30 | after resolution the key `"Environment"` holds the adopted variant's raw string, and every other key is unchanged |
| Domain.ResolveMissing | Core/Domain/Environment.swift:20-25 | with no value at the key the result is `prod` and the key is set to `"https://api.prod.network"` |
| Domain.ResolveUnrecognised | Core/Domain/Environment.swift:21-25 | a value that is not a raw string is overwritten with `prod`'s raw string and `prod` is adopted |
| Domain.ResolveRecognised | Core/Domain/Environment.swift:20-21 | a value equal to a variant's raw string selects that variant and leaves the store unchanged |
| Domain.ResolveUnchangedIff | Core/Domain/Environment.swift:19-30 | the store is left untouched if and only if the key already holds one of the three raw strings |
| Domain.ResolveIdempotent | Core/Domain/Environment.swift:19-30 | resolving the healed store again gives the same variant and the same store |
| Domain.LaterReadsAgree | Core/Domain/Environment.swift:19-30 | after any number of reads the store is what the first read left, and every read adopts the variant the first one adopted |
| Domain.InitFromDefaults | Core/Domain/Environment.swift:19-30 | the constructor updates the store in place exactly as `Resolve` says: the adopted variant, the healed key, every other key unchanged |
| Settings.DefaultSettings.StringForKey | Core/Domain/Environment.swift:20 | a read gives the stored string, or nothing when the key has no value, and changes nothing |
| Settings.DefaultSettings.Set | Core/Domain/Environment.swift:23 | a write sets the one key and leaves every other key as it was |
| Settings.DefaultSettings.Synchronize | Core/Domain/Environment.swift:24 | flushing leaves the store's contents unchanged |

## Left out

- `URL(string:)!` in `baseUrl`: URL parsing belongs to Foundation, so the
  base URL is modelled as the raw string itself; `Environment.RawValue`
  proves each raw string carries the `https://` scheme, but that the forced
  unwrap never fails is not proved.
- `synchronize()`: writing the store to disk is I/O; it is a no-op on the
  contents.
- The real implementation of `DefaultSettings` (a user-defaults store) is
  not part of this model; only map lookup and map update are modelled.
- `AppDelegate.swift`: UIKit lifecycle and notification callbacks that only
  forward to collaborators defined elsewhere (dependency injection, the
  presenter and router, notification services, orientation locking); there
  is no logic of its own to model.
