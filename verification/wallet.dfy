/** The Solana wallet (src-tauri/src/wallet/mod.rs): a keypair held in memory
    only while unlocked, and its password-encrypted copy in the key-value
    store. Cryptography, encodings, BIP-39 and the RPC client are the
    uninterpreted function fields of `Primitives`; the random salt, nonce and
    mnemonic are parameters. */
module Wallet {
  import opened Wrappers
  import opened Store

  type Byte = b: int | 0 <= b < 256
  type Bytes = seq<Byte>

  const LamportsPerSol: nat := 1000000000
  const WalletKey: string := "solana_wallet_encrypted"
  const AddressKey: string := "solana_wallet_address"
  const SaltLength: nat := 16
  const NonceLength: nat := 12
  /** Salt and nonce together: the shortest input `decrypt` accepts. */
  const HeaderLength: nat := SaltLength + NonceLength

  /** The libraries the wallet calls, as functions:
      - deriveKey: PBKDF2-HMAC-SHA256 over (password, salt), 100000 rounds, 32 bytes out;
      - seal / open: AES-256-GCM encryption and authenticated decryption under (key, nonce);
      - encode64 / decode64: standard base64; encode58 / decode58: base58;
      - validPublic: whether 32 bytes decode to an ed25519 public key;
      - derivePublic: the ed25519 public key of a 32-byte secret key;
      - validPhrase / toSeed: BIP-39 English phrase check and seed with an empty passphrase;
      - balanceOf: the RPC balance query, in lamports, or the RPC client's error text. */
  datatype Primitives = Primitives(
    deriveKey: (string, Bytes) -> Bytes,
    seal: (Bytes, Bytes, Bytes) -> Option<Bytes>,
    open: (Bytes, Bytes, Bytes) -> Option<Bytes>,
    encode64: Bytes -> string,
    decode64: string -> Option<Bytes>,
    encode58: Bytes -> string,
    decode58: string -> Option<Bytes>,
    validPublic: Bytes -> bool,
    derivePublic: Bytes -> Bytes,
    validPhrase: string -> bool,
    toSeed: string -> Bytes,
    balanceOf: Bytes -> Result<nat, string>)

  /** What the libraries guarantee about key material: a BIP-39 seed is 64
      bytes, and a derived public key is a valid 32-byte public key. */
  ghost predicate Coherent(p: Primitives) {
    && (forall s: Bytes :: |s| == 32 ==> |p.derivePublic(s)| == 32 && p.validPublic(p.derivePublic(s)))
    && (forall w: string :: |p.toSeed(w)| == 64)
  }

  /** What the libraries guarantee about their inverses: decoding undoes
      encoding, and opening undoes sealing under the same key and nonce. */
  ghost predicate RoundTrips(p: Primitives) {
    && (forall b: Bytes :: p.decode64(p.encode64(b)) == Some(b))
    && (forall b: Bytes :: p.decode58(p.encode58(b)) == Some(b))
    && (forall k: Bytes, n: Bytes, m: Bytes ::
          p.seal(k, n, m).Some? ==> p.open(k, n, p.seal(k, n, m).value) == Some(m))
  }

  datatype Keypair = Keypair(secret: Bytes, public: Bytes)

  /** `Keypair::to_bytes`: secret half then public half. */
  function ToBytes(kp: Keypair): Bytes {
    kp.secret + kp.public
  }

  /** A keypair `Keypair::from_bytes` can produce. */
  predicate Accepted(p: Primitives, kp: Keypair) {
    |kp.secret| == 32 && |kp.public| == 32 && p.validPublic(kp.public)
  }

  datatype DecryptError =
    | InvalidBase64
    | InvalidEncryptedData
    | DecryptionFailed
  {
    function Message(): string {
      match this
      case InvalidBase64 => "Invalid base64"
      case InvalidEncryptedData => "Invalid encrypted data"
      case DecryptionFailed => "Decryption failed (wrong password?)"
    }
  }

  datatype WalletError =
    | NotUnlocked
    | NoWalletFound
    | InvalidWalletData
    | WrongPassword(cause: DecryptError)
    | InvalidRecoveryPhrase
    | InvalidPrivateKey
    | KeypairLength(found: nat)
    | InvalidPublicKey
    | EncryptionFailed
    | StorageFailed(storageError: StorageError)
    | RpcFailed(reason: string)
  {
    /** The outermost message, as anyhow displays the error. */
    function Message(): string {
      match this
      case NotUnlocked => "Wallet not unlocked"
      case NoWalletFound => "No wallet found"
      case InvalidWalletData => "Invalid wallet data"
      case WrongPassword(_) => "Wrong password"
      case InvalidRecoveryPhrase => "Invalid recovery phrase"
      case InvalidPrivateKey => "Invalid private key"
      case KeypairLength(_) => "signature error"
      case InvalidPublicKey => "signature error"
      case EncryptionFailed => "Encryption failed"
      case StorageFailed(e) => e.Message()
      case RpcFailed(reason) => reason
    }
  }

  /** A storage result as the wallet's `?` propagates it. */
  function FromStorage(res: Result<(), StorageError>): (r: Result<(), WalletError>)
    ensures r.Ok? <==> res.Ok?
    ensures res.Err? ==> r == Err(StorageFailed(res.error))
  {
    match res
    case Ok(_) => Ok(())
    case Err(e) => Err(StorageFailed(e))
  }

  /** `Keypair::from_bytes`: exactly 64 bytes, whose second half is a valid public key. */
  function KeypairFromBytes(p: Primitives, b: Bytes): (r: Result<Keypair, WalletError>)
    ensures r.Ok? <==> |b| == 64 && p.validPublic(b[32..])
    ensures r.Ok? ==> ToBytes(r.value) == b && Accepted(p, r.value)
    ensures |b| != 64 ==> r == Err(KeypairLength(|b|))
  {
    if |b| != 64 then Err(KeypairLength(|b|))
    else if !p.validPublic(b[32..]) then Err(InvalidPublicKey)
    else Ok(Keypair(b[..32], b[32..]))
  }

  /** `Keypair::from_bytes(&keypair.to_bytes())`, the copy every unlocking
      operation stores, gives back the same keypair. */
  lemma CopyKeypair(p: Primitives, kp: Keypair)
    requires Accepted(p, kp)
    ensures KeypairFromBytes(p, ToBytes(kp)) == Ok(kp)
  {
    var b := ToBytes(kp);
    assert b[..32] == kp.secret && b[32..] == kp.public;
  }

  /** `pubkey().to_string()`: the base58 text of the public key. */
  function Address(p: Primitives, kp: Keypair): string {
    p.encode58(kp.public)
  }

  /** The layout `encrypt` stores: salt, then nonce, then the sealed data. */
  function Frame(salt: Bytes, nonce: Bytes, sealed: Bytes): (r: Bytes)
    requires |salt| == SaltLength && |nonce| == NonceLength
    ensures |r| == HeaderLength + |sealed|
    ensures r[..SaltLength] == salt && r[SaltLength..HeaderLength] == nonce && r[HeaderLength..] == sealed
  {
    salt + nonce + sealed
  }

  /** The split `decrypt` makes: `None` for fewer than 28 bytes, otherwise
      the pieces at offsets 0, 16 and 28. */
  function Unframe(combined: Bytes): (r: Option<(Bytes, Bytes, Bytes)>)
    ensures r.None? <==> |combined| < HeaderLength
    ensures r.Some? ==> |r.value.0| == SaltLength && |r.value.1| == NonceLength
    ensures r.Some? ==> Frame(r.value.0, r.value.1, r.value.2) == combined
  {
    if |combined| < HeaderLength then None
    else Some((combined[..SaltLength], combined[SaltLength..HeaderLength], combined[HeaderLength..]))
  }

  /** Splitting what was framed recovers the salt, nonce and sealed data. */
  lemma UnframeFrame(salt: Bytes, nonce: Bytes, sealed: Bytes)
    requires |salt| == SaltLength && |nonce| == NonceLength
    ensures Unframe(Frame(salt, nonce, sealed)) == Some((salt, nonce, sealed))
  {
    var b := Frame(salt, nonce, sealed);
    assert b[..SaltLength] == salt && b[SaltLength..HeaderLength] == nonce && b[HeaderLength..] == sealed;
  }

  /** What `encrypt` returns for the given salt and nonce; it specifies the
      method Encrypt. The stored text decodes to a frame that carries the
      salt and nonce in the clear. */
  function Encryption(p: Primitives, data: Bytes, password: string, salt: Bytes, nonce: Bytes): (r: Result<string, WalletError>)
    requires |salt| == SaltLength && |nonce| == NonceLength
    ensures r.Err? <==> p.seal(p.deriveKey(password, salt), nonce, data).None?
    ensures r.Err? ==> r.error == EncryptionFailed
    ensures RoundTrips(p) && r.Ok? ==>
      && p.decode64(r.value).Some?
      && |p.decode64(r.value).value| >= HeaderLength
      && p.decode64(r.value).value[..SaltLength] == salt
      && p.decode64(r.value).value[SaltLength..HeaderLength] == nonce
  {
    var key := p.deriveKey(password, salt);
    match p.seal(key, nonce, data)
    case None => Err(EncryptionFailed)
    case Some(sealed) => Ok(p.encode64(Frame(salt, nonce, sealed)))
  }

  /** `encrypt`: derive the key, seal, and base64-encode the combined buffer
      built up piece by piece. */
  method Encrypt(p: Primitives, data: Bytes, password: string, salt: Bytes, nonce: Bytes)
    returns (r: Result<string, WalletError>)
    requires |salt| == SaltLength && |nonce| == NonceLength
    ensures r == Encryption(p, data, password, salt, nonce)
  {
    var key := p.deriveKey(password, salt);
    var sealed := p.seal(key, nonce, data);
    if sealed.None? {
      return Err(EncryptionFailed);
    }
    var combined: Bytes := [];
    combined := combined + salt;
    combined := combined + nonce;
    combined := combined + sealed.value;
    assert combined == Frame(salt, nonce, sealed.value);
    return Ok(p.encode64(combined));
  }

  /** `decrypt`: base64-decode, reject fewer than 28 bytes, derive the key
      from the stored salt and open the rest. */
  function Decrypt(p: Primitives, encrypted: string, password: string): (r: Result<Bytes, DecryptError>)
    ensures p.decode64(encrypted).None? <==> r == Err(InvalidBase64)
    ensures (p.decode64(encrypted).Some? && |p.decode64(encrypted).value| < HeaderLength)
            <==> r == Err(InvalidEncryptedData)
    ensures p.decode64(encrypted).Some? && |p.decode64(encrypted).value| >= HeaderLength ==>
      var c := p.decode64(encrypted).value;
      var plain := p.open(p.deriveKey(password, c[..SaltLength]), c[SaltLength..HeaderLength], c[HeaderLength..]);
      (plain.None? <==> r == Err(DecryptionFailed)) && (plain.Some? ==> r == Ok(plain.value))
    ensures r.Ok? ==> exists salt: Bytes, nonce: Bytes, sealed: Bytes ::
      |salt| == SaltLength && |nonce| == NonceLength &&
      p.decode64(encrypted) == Some(Frame(salt, nonce, sealed)) &&
      p.open(p.deriveKey(password, salt), nonce, sealed) == Some(r.value)
  {
    match p.decode64(encrypted)
    case None => Err(InvalidBase64)
    case Some(combined) =>
      match Unframe(combined)
      case None => Err(InvalidEncryptedData)
      case Some((salt, nonce, sealed)) =>
        match p.open(p.deriveKey(password, salt), nonce, sealed)
        case None => Err(DecryptionFailed)
        case Some(plain) => Ok(plain)
  }

  /** Decrypting with the same password recovers what `encrypt` sealed. */
  lemma DecryptEncryption(p: Primitives, data: Bytes, password: string, salt: Bytes, nonce: Bytes)
    requires RoundTrips(p)
    requires |salt| == SaltLength && |nonce| == NonceLength
    requires Encryption(p, data, password, salt, nonce).Ok?
    ensures Decrypt(p, Encryption(p, data, password, salt, nonce).value, password) == Ok(data)
  {
    var key := p.deriveKey(password, salt);
    var sealed := p.seal(key, nonce, data).value;
    var combined := Frame(salt, nonce, sealed);
    assert p.decode64(p.encode64(combined)) == Some(combined);
    UnframeFrame(salt, nonce, sealed);
    assert p.open(key, nonce, sealed) == Some(data);
  }

  /** The ciphertext `save_wallet` stores decrypts and parses back into the
      keypair that was saved, so a later `unlock` with the same password
      restores it. */
  lemma SavedKeypairUnlocks(p: Primitives, kp: Keypair, password: string, salt: Bytes, nonce: Bytes)
    requires RoundTrips(p) && Accepted(p, kp)
    requires |salt| == SaltLength && |nonce| == NonceLength
    requires Encryption(p, ToBytes(kp), password, salt, nonce).Ok?
    ensures var plain := Decrypt(p, Encryption(p, ToBytes(kp), password, salt, nonce).value, password);
      plain == Ok(ToBytes(kp)) && KeypairFromBytes(p, plain.value) == Ok(kp)
  {
    DecryptEncryption(p, ToBytes(kp), password, salt, nonce);
    CopyKeypair(p, kp);
  }

  /** The decoding half of `import_from_private_key`. */
  function ParsePrivateKey(p: Primitives, text: string): (r: Result<Keypair, WalletError>)
    ensures p.decode58(text).None? ==> r == Err(InvalidPrivateKey)
    ensures r.Ok? <==> (p.decode58(text).Some? && |p.decode58(text).value| == 64 &&
                        p.validPublic(p.decode58(text).value[32..]))
    ensures r.Ok? ==> Accepted(p, r.value) && p.decode58(text) == Some(ToBytes(r.value))
  {
    match p.decode58(text)
    case None => Err(InvalidPrivateKey)
    case Some(bytes) => KeypairFromBytes(p, bytes)
  }

  /** An exported private key imports back as the same keypair. */
  lemma ExportedKeyImports(p: Primitives, kp: Keypair)
    requires RoundTrips(p) && Accepted(p, kp)
    ensures ParsePrivateKey(p, p.encode58(ToBytes(kp))) == Ok(kp)
  {
    assert p.decode58(p.encode58(ToBytes(kp))) == Some(ToBytes(kp));
    CopyKeypair(p, kp);
  }

  /** The keypair `generate_new` and `import_from_mnemonic` build as written:
      `Keypair::from_bytes(&seed[..32])` is handed 32 bytes where 64 are
      required, so it always fails. */
  function SeedKeypairAsWritten(p: Primitives, seed: Bytes): (r: Result<Keypair, WalletError>)
    requires |seed| == 64
    ensures r == Err(KeypairLength(32))
  {
    KeypairFromBytes(p, seed[..32])
  }

  /** The evidently intended keypair: the first 32 seed bytes as the secret
      key and its derived public key (what `keypair_from_seed` does). */
  function KeypairFromSeed(p: Primitives, seed: Bytes): (r: Keypair)
    requires |seed| >= 32
    ensures r.secret == seed[..32]
    ensures Coherent(p) ==> Accepted(p, r)
  {
    var secret := seed[..32];
    Keypair(secret, p.derivePublic(secret))
  }

  /** The corrected seed keypair survives the copy into the wallet: the
      `Keypair::from_bytes(&keypair.to_bytes())` that follows succeeds. */
  lemma SeedKeypairCopies(p: Primitives, seed: Bytes)
    requires Coherent(p) && |seed| >= 32
    ensures KeypairFromBytes(p, ToBytes(KeypairFromSeed(p, seed))) == Ok(KeypairFromSeed(p, seed))
  {
    CopyKeypair(p, KeypairFromSeed(p, seed));
  }

  class SolanaWallet {
    /** The unlocked keypair; `None` while locked. */
    var keypair: Option<Keypair>
    const prims: Primitives

    ghost predicate Valid()
      reads this
    {
      Coherent(prims) && (keypair.Some? ==> Accepted(prims, keypair.value))
    }

    /** `SolanaWallet::new`: starts locked. */
    constructor (prims: Primitives)
      requires Coherent(prims)
      ensures Valid() && keypair == None && this.prims == prims
    {
      keypair := None;
      this.prims := prims;
    }

    /** `has_wallet`: an entry exists under the wallet key. */
    function HasWallet(storage: Storage): (r: bool)
      reads storage
      ensures r <==> WalletKey in storage.data
    {
      storage.Get(WalletKey).Some?
    }

    /** `is_unlocked`. */
    function IsUnlocked(): (r: bool)
      reads this
      ensures r <==> keypair.Some?
    {
      keypair.Some?
    }

    /** `lock`: forget the keypair. */
    method Lock()
      requires Valid()
      modifies this
      ensures Valid() && keypair == None && !IsUnlocked()
    {
      keypair := None;
    }

    /** `get_address`: fails exactly while locked. */
    function GetAddress(): (r: Result<string, WalletError>)
      reads this
      ensures keypair.None? <==> r == Err(NotUnlocked)
      ensures keypair.Some? ==> r == Ok(Address(prims, keypair.value))
    {
      match keypair
      case None => Err(NotUnlocked)
      case Some(kp) => Ok(Address(prims, kp))
    }

    /** `get_balance`: fails while locked or when the RPC call fails; otherwise
        the lamport balance divided by 10^9 (exact division here). */
    function GetBalance(): (r: Result<real, WalletError>)
      reads this
      ensures keypair.None? ==> r == Err(NotUnlocked)
      ensures keypair.Some? && prims.balanceOf(keypair.value.public).Err? ==>
        r == Err(RpcFailed(prims.balanceOf(keypair.value.public).error))
      ensures r.Ok? <==> keypair.Some? && prims.balanceOf(keypair.value.public).Ok?
      ensures r.Ok? ==> keypair.Some? && prims.balanceOf(keypair.value.public).Ok? &&
                        r.value * (LamportsPerSol as real) == prims.balanceOf(keypair.value.public).value as real
    {
      match keypair
      case None => Err(NotUnlocked)
      case Some(kp) =>
        match prims.balanceOf(kp.public)
        case Err(reason) => Err(RpcFailed(reason))
        case Ok(lamports) => Ok(lamports as real / LamportsPerSol as real)
    }

    /** `export_private_key`: the base58 text of the 64-byte keypair, only while unlocked. */
    function ExportPrivateKey(): (r: Result<string, WalletError>)
      reads this
      ensures keypair.None? <==> r == Err(NotUnlocked)
      ensures keypair.Some? ==> r == Ok(prims.encode58(ToBytes(keypair.value)))
    {
      match keypair
      case None => Err(NotUnlocked)
      case Some(kp) => Ok(prims.encode58(ToBytes(kp)))
    }

    /** `save_wallet`: store the ciphertext under the wallet key, then the
        address under the address key; each write persists the whole map. */
    method SaveWallet(kp: Keypair, password: string, salt: Bytes, nonce: Bytes, storage: Storage)
      returns (r: Result<(), WalletError>)
      requires |salt| == SaltLength && |nonce| == NonceLength
      modifies storage
      ensures var enc := Encryption(prims, ToBytes(kp), password, salt, nonce);
        enc.Err? ==> r == Err(enc.error) && unchanged(storage)
      ensures var enc := Encryption(prims, ToBytes(kp), password, salt, nonce);
        enc.Ok? && storage.writable ==>
          && r.Ok?
          && storage.data == old(storage.data)[WalletKey := JString(enc.value)][AddressKey := JString(Address(prims, kp))]
          && storage.lastSaved == Some(storage.data)
      ensures var enc := Encryption(prims, ToBytes(kp), password, salt, nonce);
        enc.Ok? && !storage.writable ==>
          && r == Err(StorageFailed(WriteFailed))
          && storage.data == old(storage.data)[WalletKey := JString(enc.value)]
          && storage.lastSaved == old(storage.lastSaved)
    {
      var encrypted := Encrypt(prims, ToBytes(kp), password, salt, nonce);
      if encrypted.Err? {
        return Err(encrypted.error);
      }
      var stored := storage.Set(WalletKey, JString(encrypted.value));
      if stored.Err? {
        return Err(StorageFailed(stored.error));
      }
      stored := storage.Set(AddressKey, JString(Address(prims, kp)));
      return FromStorage(stored);
    }

    /** The tail shared by `generate_new` and the imports: save, then store
        the copied keypair, which unlocks the wallet. */
    method SaveAndUnlock(kp: Keypair, password: string, salt: Bytes, nonce: Bytes, storage: Storage)
      returns (r: Result<string, WalletError>)
      requires Valid() && Accepted(prims, kp)
      requires |salt| == SaltLength && |nonce| == NonceLength
      modifies this, storage
      ensures Valid()
      ensures var enc := Encryption(prims, ToBytes(kp), password, salt, nonce);
        r.Ok? <==> enc.Ok? && storage.writable
      ensures var enc := Encryption(prims, ToBytes(kp), password, salt, nonce);
        r.Ok? ==> && keypair == Some(kp)
                  && r.value == Address(prims, kp)
                  && storage.data == old(storage.data)[WalletKey := JString(enc.value)][AddressKey := JString(Address(prims, kp))]
                  && storage.lastSaved == Some(storage.data)
      ensures r.Err? ==> keypair == old(keypair)
      ensures Encryption(prims, ToBytes(kp), password, salt, nonce).Err? ==> unchanged(storage)
    {
      var saved := SaveWallet(kp, password, salt, nonce, storage);
      if saved.Err? {
        return Err(saved.error);
      }
      CopyKeypair(prims, kp);
      keypair := Some(KeypairFromBytes(prims, ToBytes(kp)).value);
      return Ok(Address(prims, kp));
    }

    /** `generate_new` as written: the keypair step fails before anything is
        saved, so the call returns the length error and, having no
        `modifies` clause, leaves the store and the lock state as they were. */
    method GenerateNewAsWritten(password: string, phrase: string, storage: Storage)
      returns (r: Result<(string, string), WalletError>)
      requires Valid()
      ensures r == Err(KeypairLength(32))
      ensures r.error.Message() == "signature error"
    {
      var seed := prims.toSeed(phrase);
      var kp := SeedKeypairAsWritten(prims, seed);
      if kp.Err? {
        return Err(kp.error);
      }
      // Unreachable: SeedKeypairAsWritten ensures it always returns an error.
      assert false;
    }

    /** `import_from_mnemonic` as written: an invalid phrase is rejected, every
        valid one fails at the keypair step; nothing is saved or unlocked. */
    method ImportFromMnemonicAsWritten(phrase: string, password: string, storage: Storage)
      returns (r: Result<string, WalletError>)
      requires Valid()
      ensures !prims.validPhrase(phrase) ==> r == Err(InvalidRecoveryPhrase)
      ensures prims.validPhrase(phrase) ==> r == Err(KeypairLength(32))
    {
      if !prims.validPhrase(phrase) {
        return Err(InvalidRecoveryPhrase);
      }
      var seed := prims.toSeed(phrase);
      var kp := SeedKeypairAsWritten(prims, seed);
      if kp.Err? {
        return Err(kp.error);
      }
      // Unreachable: SeedKeypairAsWritten ensures it always returns an error.
      assert false;
    }

    /** `generate_new`, with the seed keypair built as evidently intended.
        `phrase` is the freshly generated 12-word mnemonic. The result is
        the address and the phrase. */
    method GenerateNew(password: string, phrase: string, salt: Bytes, nonce: Bytes, storage: Storage)
      returns (r: Result<(string, string), WalletError>)
      requires Valid()
      requires |salt| == SaltLength && |nonce| == NonceLength
      modifies this, storage
      ensures Valid()
      ensures var kp := KeypairFromSeed(prims, prims.toSeed(phrase));
        var enc := Encryption(prims, ToBytes(kp), password, salt, nonce);
        && (r.Ok? <==> enc.Ok? && storage.writable)
        && (r.Ok? ==> && keypair == Some(kp)
                      && r.value == (Address(prims, kp), phrase)
                      && storage.data == old(storage.data)[WalletKey := JString(enc.value)][AddressKey := JString(Address(prims, kp))])
      ensures r.Err? ==> keypair == old(keypair)
    {
      var seed := prims.toSeed(phrase);
      var kp := KeypairFromSeed(prims, seed);
      var installed := SaveAndUnlock(kp, password, salt, nonce, storage);
      if installed.Err? {
        return Err(installed.error);
      }
      return Ok((installed.value, phrase));
    }

    /** `import_from_mnemonic`, with the seed keypair built as evidently intended. */
    method ImportFromMnemonic(phrase: string, password: string, salt: Bytes, nonce: Bytes, storage: Storage)
      returns (r: Result<string, WalletError>)
      requires Valid()
      requires |salt| == SaltLength && |nonce| == NonceLength
      modifies this, storage
      ensures Valid()
      ensures !prims.validPhrase(phrase) ==> r == Err(InvalidRecoveryPhrase) && unchanged(storage)
      ensures var kp := KeypairFromSeed(prims, prims.toSeed(phrase));
        var enc := Encryption(prims, ToBytes(kp), password, salt, nonce);
        && (r.Ok? <==> prims.validPhrase(phrase) && enc.Ok? && storage.writable)
        && (r.Ok? ==> && keypair == Some(kp)
                      && r.value == Address(prims, kp)
                      && storage.data == old(storage.data)[WalletKey := JString(enc.value)][AddressKey := JString(Address(prims, kp))])
      ensures r.Err? ==> keypair == old(keypair)
    {
      if !prims.validPhrase(phrase) {
        return Err(InvalidRecoveryPhrase);
      }
      var seed := prims.toSeed(phrase);
      var kp := KeypairFromSeed(prims, seed);
      r := SaveAndUnlock(kp, password, salt, nonce, storage);
    }

    /** `import_from_private_key`: base58-decode, parse the 64 bytes, save and unlock. */
    method ImportFromPrivateKey(text: string, password: string, salt: Bytes, nonce: Bytes, storage: Storage)
      returns (r: Result<string, WalletError>)
      requires Valid()
      requires |salt| == SaltLength && |nonce| == NonceLength
      modifies this, storage
      ensures Valid()
      ensures ParsePrivateKey(prims, text).Err? ==>
        r == Err(ParsePrivateKey(prims, text).error) && unchanged(storage) && keypair == old(keypair)
      ensures var parsed := ParsePrivateKey(prims, text);
        parsed.Ok? ==>
          var enc := Encryption(prims, ToBytes(parsed.value), password, salt, nonce);
          && (r.Ok? <==> enc.Ok? && storage.writable)
          && (r.Ok? ==> && keypair == Some(parsed.value)
                        && r.value == Address(prims, parsed.value)
                        && storage.data == old(storage.data)[WalletKey := JString(enc.value)]
                                                            [AddressKey := JString(Address(prims, parsed.value))])
      ensures r.Err? ==> keypair == old(keypair)
    {
      var parsed := ParsePrivateKey(prims, text);
      if parsed.Err? {
        return Err(parsed.error);
      }
      r := SaveAndUnlock(parsed.value, password, salt, nonce, storage);
    }

    /** `unlock`: read the stored ciphertext, decrypt it with the password and
        install the keypair. Every failure leaves the lock state as it was. */
    method Unlock(password: string, storage: Storage) returns (r: Result<string, WalletError>)
      requires Valid()
      modifies this
      ensures Valid()
      ensures storage.Get(WalletKey).None? ==> r == Err(NoWalletFound)
      ensures storage.Get(WalletKey).Some? && !storage.Get(WalletKey).value.JString? ==> r == Err(InvalidWalletData)
      ensures var stored := storage.Get(WalletKey);
        stored.Some? && stored.value.JString? && Decrypt(prims, stored.value.s, password).Err? ==>
          r == Err(WrongPassword(Decrypt(prims, stored.value.s, password).error))
      ensures var stored := storage.Get(WalletKey);
        r.Ok? <==> && stored.Some? && stored.value.JString?
                   && Decrypt(prims, stored.value.s, password).Ok?
                   && KeypairFromBytes(prims, Decrypt(prims, stored.value.s, password).value).Ok?
      ensures var stored := storage.Get(WalletKey);
        r.Ok? ==> var kp := KeypairFromBytes(prims, Decrypt(prims, stored.value.s, password).value).value;
                  keypair == Some(kp) && r.value == Address(prims, kp)
      ensures r.Err? ==> keypair == old(keypair)
    {
      var stored := storage.Get(WalletKey);
      if stored.None? {
        return Err(NoWalletFound);
      }
      if !stored.value.JString? {
        return Err(InvalidWalletData);
      }
      var secret := Decrypt(prims, stored.value.s, password);
      if secret.Err? {
        return Err(WrongPassword(secret.error));
      }
      var parsed := KeypairFromBytes(prims, secret.value);
      if parsed.Err? {
        return Err(parsed.error);
      }
      var kp := parsed.value;
      CopyKeypair(prims, kp);
      keypair := Some(KeypairFromBytes(prims, ToBytes(kp)).value);
      return Ok(Address(prims, kp));
    }
  }

  /** While locked, every accessor fails with "Wallet not unlocked". */
  lemma LockedAccessorsFail(w: SolanaWallet)
    requires !w.IsUnlocked()
    ensures w.GetAddress() == Err(NotUnlocked)
    ensures w.GetBalance() == Err(NotUnlocked)
    ensures w.ExportPrivateKey() == Err(NotUnlocked)
    ensures w.GetAddress().error.Message() == "Wallet not unlocked"
  {
  }

  /** While unlocked, the exported private key imports back as the unlocked keypair. */
  lemma ExportImportRoundTrip(w: SolanaWallet)
    requires w.Valid() && RoundTrips(w.prims) && w.IsUnlocked()
    ensures w.ExportPrivateKey().Ok?
    ensures ParsePrivateKey(w.prims, w.ExportPrivateKey().value) == Ok(w.keypair.value)
  {
    ExportedKeyImports(w.prims, w.keypair.value);
  }

  /** Saving a keypair and then unlocking with the same password leaves the
      wallet unlocked with that keypair. */
  method SaveThenUnlock(w: SolanaWallet, kp: Keypair, password: string, salt: Bytes, nonce: Bytes, storage: Storage)
    returns (r: Result<string, WalletError>)
    requires w.Valid() && RoundTrips(w.prims) && Accepted(w.prims, kp)
    requires |salt| == SaltLength && |nonce| == NonceLength
    requires storage.writable
    requires Encryption(w.prims, ToBytes(kp), password, salt, nonce).Ok?
    modifies w, storage
    ensures r == Ok(Address(w.prims, kp)) && w.keypair == Some(kp)
  {
    var saved := w.SaveWallet(kp, password, salt, nonce, storage);
    w.Lock();
    SavedKeypairUnlocks(w.prims, kp, password, salt, nonce);
    r := w.Unlock(password, storage);
  }
}
