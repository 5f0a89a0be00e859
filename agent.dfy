/**
 The capability-token registry of the ethlink agent (package `agent`).

 An Agent keeps a map from token string to Token. CreateAddress asks the
 keystore for a new account, derives a token from 16 random-looking bytes,
 and stores a record that lets the bearer view that account's key for 15
 minutes. GetKey looks a token up and checks, in this order, that it is
 present, that it has not expired and that it carries the "view"
 permission; only then does it export the key through the keystore.

 The clock, the random digest and the go-ethereum keystore are not modelled:
 the current time and the digest are parameters, the account NewAccount
 created is a parameter, and the keystore's export and address formatting
 are the two functions held in a KeyStore value.
 */
module Agent {
  import opened Wrappers
  import Hex

  /** A reading of the clock, in nanoseconds (the resolution of Go's time.Time). */
  type Instant = int

  const Minute: int := 60 * 1_000_000_000

  /** How long a token minted by CreateAddress stays usable. */
  const TokenLifetime: int := 15 * Minute

  /** The only permission the agent ever grants, and the one GetKey demands. */
  const ViewPermission: string := "view"

  /** The 16 bytes of an MD5 sum, from which a token string is made. */
  type Digest = s: seq<Hex.byte> | |s| == 16 witness seq(16, _ => 0)

  /** An Ethereum address: 20 bytes. */
  type Address = s: seq<Hex.byte> | |s| == 20 witness seq(20, _ => 0)

  /** go-ethereum's accounts.Account: an address and the URL of its key file. */
  datatype Account = Account(address: Address, url: string)

  /**
   The go-ethereum calls GetKey makes, seen only from the outside.
   exportKey(account, passphrase) stands for keystore.Export followed by
   keystore.DecryptKey and crypto.FromECDSA: the raw private key bytes.
   addressHex stands for Address.Hex, the checksummed "0x..." spelling.
   The source discards their errors, so they are total here.
   */
  datatype KeyStore = KeyStore(
    exportKey: (Account, string) -> seq<Hex.byte>,
    addressHex: Address -> string)

  /** One entry of the registry. `token` repeats the key it is stored under. */
  datatype Token = Token(
    expiry: Instant,
    account: Account,
    token: string,
    passphrase: string,
    permissions: string)

  /** The three ways GetKey refuses a token. */
  datatype KeyError = TokenNotPresent | TokenExpired | InsufficientPermissions
  {
    /** The text of the Go error value. */
    function Message(): (s: string)
      ensures TokenNotPresent? ==> s == "tokenNotPresent"
      ensures TokenExpired? ==> s == "tokenExpired"
      ensures InsufficientPermissions? ==> s == "insufficientPermissions"
    {
      match this
      case TokenNotPresent => "tokenNotPresent"
      case TokenExpired => "tokenExpired"
      case InsufficientPermissions => "insufficientPermissions"
    }
  }

  /** GetKey's three results: the address, the hex private key and the error (None is Go's nil). */
  datatype KeyReply = KeyReply(address: string, privateKey: string, err: Option<KeyError>)

  /** The token string for a digest: its `%x` rendering. */
  function TokenString(digest: Digest): (t: string)
    ensures |t| == 32 && Hex.IsLowerHex(t)
    ensures Hex.Decode(t) == Some(digest)
  {
    Hex.DecodeEncode(digest);
    Hex.Encode(digest)
  }

  /**
   What every state the agent can reach satisfies: each record is stored
   under its own token, the token is 32 lower-case hex digits and the
   permission is "view".
   */
  ghost predicate WellFormed(tokens: map<string, Token>) {
    forall k :: k in tokens ==>
      && tokens[k].token == k
      && tokens[k].permissions == ViewPermission
      && |k| == 32 && Hex.IsLowerHex(k)
  }

  /** The token map after CreateAddress(passphrase) at time now, when NewAccount gave account. */
  function Register(tokens: map<string, Token>, passphrase: string, account: Account, digest: Digest, now: Instant)
    : (m: map<string, Token>)
    ensures m.Keys == tokens.Keys + {TokenString(digest)}
    ensures m[TokenString(digest)] ==
              Token(now + TokenLifetime, account, TokenString(digest), passphrase, ViewPermission)
    ensures forall k :: k in tokens && k != TokenString(digest) ==> m[k] == tokens[k]
    ensures WellFormed(tokens) ==> WellFormed(m)
  {
    var t := TokenString(digest);
    tokens[t := Token(now + TokenLifetime, account, t, passphrase, ViewPermission)]
  }

  /** GetKey's checks, in the source's order: present, then not expired, then permitted. */
  function Resolve(tokens: map<string, Token>, token: string, now: Instant): (r: Result<Token, KeyError>)
    ensures r == Err(TokenNotPresent) <==> token !in tokens
    ensures r == Err(TokenExpired) <==> token in tokens && now > tokens[token].expiry
    ensures r == Err(InsufficientPermissions) <==>
              token in tokens && now <= tokens[token].expiry && tokens[token].permissions != ViewPermission
    ensures r.Ok? <==>
              token in tokens && now <= tokens[token].expiry && tokens[token].permissions == ViewPermission
    ensures r.Ok? ==> r.value == tokens[token]
  {
    if token !in tokens then Err(TokenNotPresent)
    else
      var t := tokens[token];
      if now > t.expiry then Err(TokenExpired)
      else if t.permissions != ViewPermission then Err(InsufficientPermissions)
      else Ok(t)
  }

  /** The agent: the keystore it was built with and the token registry. */
  class Agent {
    const keystore: KeyStore
    var tokens: map<string, Token>

    ghost predicate Valid()
      reads this
    {
      WellFormed(tokens)
    }

    /** NewAgent; the keystore it opens is the parameter. */
    constructor NewAgent(keystore: KeyStore)
      ensures this.keystore == keystore
      ensures tokens == map[]
      ensures Valid()
    {
      this.keystore := keystore;
      tokens := map[];
    }

    /**
     Mints a token for the account NewAccount(passphrase) created; digest is
     the MD5 sum of the random bytes and now the clock reading.
     */
    method CreateAddress(passphrase: string, account: Account, digest: Digest, now: Instant)
      returns (token: string)
      modifies this`tokens
      ensures token == TokenString(digest)
      ensures tokens == Register(old(tokens), passphrase, account, digest, now)
      ensures old(tokens).Keys <= tokens.Keys
      ensures old(Valid()) ==> Valid()
    {
      token := Hex.Encode(digest);
      tokens := tokens[token := Token(now + TokenLifetime, account, token, passphrase, ViewPermission)];
    }

    /** Exports the key a token unlocks, or says why not; reads the registry and changes nothing. */
    function GetKey(token: string, now: Instant): (r: KeyReply)
      reads this
      ensures token !in tokens ==> r == KeyReply("", "", Some(TokenNotPresent))
      ensures token in tokens && now > tokens[token].expiry ==> r == KeyReply("", "", Some(TokenExpired))
      ensures (token in tokens && now <= tokens[token].expiry && tokens[token].permissions != ViewPermission)
                ==> r == KeyReply("", "", Some(InsufficientPermissions))
      ensures r.err == None <==>
                token in tokens && now <= tokens[token].expiry && tokens[token].permissions == ViewPermission
      ensures r.err == None ==>
                var t := tokens[token];
                && r.address == keystore.addressHex(t.account.address)
                && Hex.Decode(r.privateKey) == Some(keystore.exportKey(t.account, t.passphrase))
                && |r.privateKey| == 2 * |keystore.exportKey(t.account, t.passphrase)|
      ensures Valid() ==> r.err != Some(InsufficientPermissions)
    {
      match Resolve(tokens, token, now)
      case Err(e) => KeyReply("", "", Some(e))
      case Ok(t) =>
        var key := keystore.exportKey(t.account, t.passphrase);
        Hex.DecodeEncode(key);
        KeyReply(keystore.addressHex(t.account.address), Hex.Encode(key), None)
    }
  }

  /**
   A token just minted resolves to its record until now + 15 minutes
   inclusive, and is reported expired from then on.
   */
  lemma ResolveAfterRegister(tokens: map<string, Token>, passphrase: string, account: Account,
                             digest: Digest, now: Instant, later: Instant)
    ensures var m := Register(tokens, passphrase, account, digest, now);
            Resolve(m, TokenString(digest), later) ==
              if later <= now + TokenLifetime
              then Ok(Token(now + TokenLifetime, account, TokenString(digest), passphrase, ViewPermission))
              else Err(TokenExpired)
  {
  }

  /** Minting one token leaves every other token's verdict as it was. */
  lemma RegisterFrame(tokens: map<string, Token>, passphrase: string, account: Account,
                      digest: Digest, now: Instant, token: string, later: Instant)
    requires token != TokenString(digest)
    ensures Resolve(Register(tokens, passphrase, account, digest, now), token, later) == Resolve(tokens, token, later)
  {
  }

  /** The expiry instant itself is still accepted; one nanosecond later is not. */
  lemma ExpiryBoundary(tokens: map<string, Token>, token: string)
    requires token in tokens
    ensures Resolve(tokens, token, tokens[token].expiry) != Err(TokenExpired)
    ensures Resolve(tokens, token, tokens[token].expiry + 1) == Err(TokenExpired)
  {
  }

  /** In every reachable registry a present, unexpired token is always accepted. */
  lemma WellFormedNeverDenied(tokens: map<string, Token>, token: string, now: Instant)
    requires WellFormed(tokens)
    ensures Resolve(tokens, token, now) != Err(InsufficientPermissions)
    ensures token in tokens && now <= tokens[token].expiry ==> Resolve(tokens, token, now).Ok?
  {
  }

  /** One call of CreateAddress, as the arguments the model gives it. */
  datatype Creation = Creation(passphrase: string, account: Account, digest: Digest, now: Instant)

  /** The registry after the given CreateAddress calls, in order. */
  ghost function Replay(tokens: map<string, Token>, calls: seq<Creation>): map<string, Token>
    decreases |calls|
  {
    if calls == [] then tokens
    else
      var c := calls[0];
      Replay(Register(tokens, c.passphrase, c.account, c.digest, c.now), calls[1..])
  }

  /**
   No sequence of calls removes a token, expired or not, and every sequence
   keeps the registry well formed.
   */
  lemma {:induction false} ReplayNeverRemoves(tokens: map<string, Token>, calls: seq<Creation>)
    ensures tokens.Keys <= Replay(tokens, calls).Keys
    ensures WellFormed(tokens) ==> WellFormed(Replay(tokens, calls))
    decreases |calls|
  {
    if calls != [] {
      var c := calls[0];
      ReplayNeverRemoves(Register(tokens, c.passphrase, c.account, c.digest, c.now), calls[1..]);
    }
  }

  /** Every token in the registry was there at the start or was minted by one of the calls. */
  lemma {:induction false} ReplayKeysMinted(tokens: map<string, Token>, calls: seq<Creation>, k: string)
    requires k in Replay(tokens, calls)
    ensures k in tokens || exists i :: 0 <= i < |calls| && k == TokenString(calls[i].digest)
    decreases |calls|
  {
    if calls != [] {
      var c := calls[0];
      var m := Register(tokens, c.passphrase, c.account, c.digest, c.now);
      ReplayKeysMinted(m, calls[1..], k);
      if k !in m {
        var i :| 0 <= i < |calls[1..]| && k == TokenString(calls[1..][i].digest);
        assert k == TokenString(calls[i + 1].digest);
      } else if k !in tokens {
        assert k == TokenString(calls[0].digest);
      }
    }
  }

  /**
   An expired token stays in the registry and stays expired as time goes on,
   whatever sequence of other tokens is minted meanwhile.
   */
  lemma {:induction false} ExpiredStaysExpired(tokens: map<string, Token>, token: string, now: Instant,
                                               later: Instant, calls: seq<Creation>)
    requires Resolve(tokens, token, now) == Err(TokenExpired)
    requires now <= later
    requires forall i :: 0 <= i < |calls| ==> TokenString(calls[i].digest) != token
    ensures token in Replay(tokens, calls)
    ensures Resolve(Replay(tokens, calls), token, later) == Err(TokenExpired)
    decreases |calls|
  {
    if calls == [] {
    } else {
      var c := calls[0];
      var m := Register(tokens, c.passphrase, c.account, c.digest, c.now);
      assert TokenString(c.digest) != token;
      assert m[token] == tokens[token];
      assert forall i :: 0 <= i < |calls[1..]| ==> calls[1..][i] == calls[i + 1];
      ExpiredStaysExpired(m, token, now, later, calls[1..]);
    }
  }

  /** The three error texts are distinct, so a caller can tell the refusals apart by text. */
  lemma MessageInjective(e1: KeyError, e2: KeyError)
    requires e1.Message() == e2.Message()
    ensures e1 == e2
  {
  }

  /**
   The request flow of the create page. The one agent the program builds at
   start-up, with whatever tokens earlier requests left in it, runs
   CreateAddress and then GetKey with the returned token within 15 minutes;
   GetKey yields the new account's address and its private key in hex.
   */
  method CreateThenView(a: Agent, passphrase: string, account: Account, digest: Digest,
                        now: Instant, later: Instant)
    returns (reply: KeyReply)
    requires now <= later <= now + TokenLifetime
    modifies a
    ensures a.tokens == Register(old(a.tokens), passphrase, account, digest, now)
    ensures reply.err == None
    ensures reply.address == a.keystore.addressHex(account.address)
    ensures Hex.Decode(reply.privateKey) == Some(a.keystore.exportKey(account, passphrase))
  {
    var token := a.CreateAddress(passphrase, account, digest, now);
    reply := a.GetKey(token, later);
  }
}
