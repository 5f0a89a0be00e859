# ethlink agent: capability-token registry

This project models the `agent` package of ethlink, a small web service that
creates Ethereum accounts and shows their private keys once. The `Agent`
holds a go-ethereum keystore and a map from token string to `Token` record
(expiry, account, the token itself, passphrase, permission).

- `NewAgent` starts with an empty token map.
- `CreateAddress(passphrase)` has the keystore create an account. It turns the
  MD5 sum of 32 random bytes into a token with `%x`, and stores a record under
  that token: expiry now + 15 minutes, permission `"view"`.
- `GetKey(token)` checks three things in a fixed order. The token must be
  present (`tokenNotPresent`), not expired (`tokenExpired`, strictly after
  the expiry instant) and hold the `"view"` permission
  (`insufficientPermissions`). Only then does it export and decrypt the key
  through the keystore. It returns the checksummed address and the key as
  `%x` text. Every error returns two empty strings.

Files:

- `wrappers.dfy`: `Option` and `Result`.
- `hex.dfy` (module `Hex`): Go's `%x` on bytes (`Encode`). It also has a decoder
  (`Decode`), proved to be its inverse in both directions.
- `agent.dfy` (module `Agent`): the data model, the pure functions `Register`
  (the map after `CreateAddress`) and `Resolve` (the three ordered checks),
  the `Agent` class with `NewAgent`, `CreateAddress` and `GetKey`, and
  lemmas about the registry.

Time is an integer count of nanoseconds passed in by the caller. The MD5
digest is a 16-byte parameter; the account `NewAccount` returned (a 20-byte
address and a key-file URL) is also a parameter.
The keystore is a `KeyStore` value made of two total functions. `exportKey`
stands for `Export`, then `DecryptKey`, then `FromECDSA`. `addressHex` stands
for `Address.Hex`.

In agent/agent.go the only permission ever stored or demanded is `"view"`,
and every token lives a fixed 15 minutes. The RPC client is commented out
(agent/agent.go:17-18, 31), so the agent makes no chain queries. Expired
tokens are never deleted (agent/agent.go:20).

## Model

| member | source | states |
|---|---|---|
| `Hex.Encode` | agent/agent.go:54 | `%x` of n bytes is 2n characters, all in `[0-9a-f]`; characters 2i and 2i+1 are the high and low nibble of byte i |
| `Hex.Decode` | agent/agent.go:54 | partner of `%x`: succeeds exactly on even-length lower-case hex text, giving half as many bytes as characters |
| `Hex.DecodeEncode` | agent/agent.go:54 | decoding the `%x` text of any bytes gives those bytes back |
| `Hex.EncodeDecode` | agent/agent.go:76 | any text that decodes is the `%x` text of what it decodes to, so `%x` is onto all even-length lower-case hex |
| `Hex.EncodeInjective` | agent/agent.go:53-54 | distinct digests give distinct tokens: a token collision needs an MD5 collision |
| `Agent.TokenString` | agent/agent.go:51-54 | a token is exactly 32 lower-case hex characters and decodes back to its 16-byte digest |
| `Agent.Register` | agent/agent.go:56 | after minting, the key set is the old one plus the token; the token's record has expiry now + 15 min, the created account, the passphrase and `"view"`; every other key keeps its record; a well-formed map stays well formed |
| `Agent.KeyError.Message` | agent/agent.go:63-69 | the error texts: `tokenNotPresent`, `tokenExpired`, `insufficientPermissions` for the three refusals |
| `Agent.MessageInjective` | agent/agent.go:63-69 | the three texts are distinct, so the refusal is recoverable from the error text |
| `Agent.Resolve` | agent/agent.go:61-70 | `tokenNotPresent` exactly when absent; `tokenExpired` exactly when present and now > expiry; `insufficientPermissions` exactly when present, unexpired and not `"view"`; otherwise the stored record; so an expired token with the wrong permission reports `tokenExpired` |
| `Agent.Agent.NewAgent` | agent/agent.go:37-45 | the new agent holds the given keystore and an empty token map |
| `Agent.Agent.CreateAddress` | agent/agent.go:48-58 | returns the `%x` token of the digest; the new map is `Register` of the old one, so no key is lost; the registry invariant is kept |
| `Agent.Agent.GetKey` | agent/agent.go:60-79 | each of the three errors comes with two empty strings, under the stated conditions; success exactly when present, unexpired and `"view"`, returning the account's checksummed address and text that decodes to the exported key (2n hex characters); in a valid agent never `insufficientPermissions`; reads the map and changes nothing |
| `Agent.ResolveAfterRegister` | agent/agent.go:56-67 | a freshly minted token resolves to its record at every time up to and including now + 15 minutes, and is expired after |
| `Agent.RegisterFrame` | agent/agent.go:56 | minting a token does not change how any other token resolves |
| `Agent.ExpiryBoundary` | agent/agent.go:65-67 | at the expiry instant the token is not expired; one nanosecond later it is |
| `Agent.WellFormedNeverDenied` | agent/agent.go:56-70 | in a reachable registry (all records `"view"`) the permission check never fails, so a present, unexpired token always succeeds |
| `Agent.ReplayNeverRemoves` | agent/agent.go:56 | no sequence of `CreateAddress` calls removes a key, expired or not, and any such sequence keeps the registry well formed |
| `Agent.ReplayKeysMinted` | agent/agent.go:48-58 | every key after a sequence of calls was present before or is the token of one call's digest |
| `Agent.ExpiredStaysExpired` | agent/agent.go:20 | an expired token stays in the map and stays expired at every later time, across any sequence of `CreateAddress` calls that mint other tokens |
| `Agent.CreateThenView` | main.go:100-103 | the create page's sequence on the shared agent (any earlier tokens present): `CreateAddress`, then `GetKey` within 15 minutes, succeeds with the new account's address and exported key; the map is `Register` of the old one |

## Left out

- The go-ethereum keystore: `NewKeyStore("keys/", StandardScryptN, StandardScryptP)`, `NewAccount`, `Export`, `DecryptKey` and `FromECDSA`. Key generation, scrypt encryption and the key files are foreign code. The account `NewAccount` returns is a parameter, and the export chain is the opaque `exportKey`.
- Keystore errors: the source discards them with `_`. Had `NewAccount` or `Export` failed, Go would use a zero account or dereference a nil key; the model has no such path.
- `Address.Hex` (EIP-55 checksum casing): it lives in the foreign library and is the opaque `addressHex`.
- `crypto/rand` and `md5.Sum`: the 16 digest bytes are a parameter. Two calls with the same digest overwrite the earlier record (see `Agent.Register`); the model does not estimate how likely that is.
- `time.Now()` and `time.Time.Add`: the clock reading is an integer parameter. Monotonic-versus-wall-clock readings and the saturation of `Add` at the limits of `time.Time` are not modelled.
- Concurrency: the map is shared, unsynchronized, by HTTP handlers. The model runs calls one at a time.
- main.go: HTTP routing, template rendering, the `PORT` and `FORCE_SSL` environment variables and `forceSsl` are I/O and UI. Only the create handler's call sequence appears, as `Agent.CreateThenView`.
- Expired-token deletion: the source has none (its own TODO), so the model has none.
