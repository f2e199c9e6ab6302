/**
 * The encrypted record store of src/dat.rs: `write_encrypted_dat`, `read_encrypted_dat`
 * with its bootstrap of defaults, and the settings cache behind
 * `store_settings_in_global_state` / `get_settings`.
 *
 * The file system is a map from path to contents; a path that is absent is a file that
 * cannot be opened. The record serialiser and the AES block transformation are parameters.
 */
module Dat {
  import opened Wrappers
  import opened Bytes
  import opened Records
  import opened Cbc

  /** The whole-record serialiser: an encoder and a decoder that may refuse its input. */
  datatype Serializer = Serializer(encode: Record -> seq<byte>, decode: seq<byte> -> Option<Record>)

  /** Decoding an encoding gives back the record. */
  ghost predicate RoundTrips(ser: Serializer) {
    forall rec :: ser.decode(ser.encode(rec)) == Some(rec)
  }

  type Path = string

  /** The file system and the process-wide settings slot. */
  datatype State = State(files: map<Path, seq<byte>>, cache: Option<Settings>)

  /** Why a load of an existing file failed. */
  datatype LoadError =
    | CipherFailed   // misaligned ciphertext or malformed padding
    | DecodeFailed   // the decrypted bytes are not an encoded record

  /** The state after a load, and what the load returned. */
  datatype Loaded = Loaded(state: State, result: Result<Record, LoadError>)

  /** A process starts with the settings slot empty. */
  function Start(files: map<Path, seq<byte>>): (st: State)
    ensures st.cache.None? && st.files == files
  {
    State(files, None)
  }

  /** `store_settings_in_global_state`: overwrite the slot, keep the files. */
  function StoreSettings(st: State, settings: Settings): (r: State)
    ensures r.cache == Some(settings)
    ensures r.files == st.files
  {
    st.(cache := Some(settings))
  }

  /**
   * `get_settings`: a copy of the slot. Storing what it returns changes nothing, and when it
   * returns nothing the state is that of a freshly started process.
   */
  function GetSettings(st: State): (r: Option<Settings>)
    ensures r.Some? ==> StoreSettings(st, r.value) == st
    ensures r.None? ==> st == Start(st.files)
  {
    st.cache
  }

  /** A fresh process reads an empty slot; after a store it reads the stored settings. */
  lemma GetReturnsLastStored(files: map<Path, seq<byte>>, st: State, settings: Settings)
    ensures GetSettings(Start(files)).None?
    ensures GetSettings(StoreSettings(st, settings)) == Some(settings)
  {
  }

  /** The bytes `write_encrypted_dat` stores: the encoded record encrypted under the header's own key. */
  function Seal(ser: Serializer, c: BlockCipher, rec: Record): (r: seq<byte>)
    ensures |r| > 0 && |r| % BlockSize == 0
  {
    Encrypt(c, rec.header.aesKey, AesIv, ser.encode(rec))
  }

  /** `write_encrypted_dat`: create or truncate the file at `path` and store the sealed record. */
  function WriteEncryptedDat(st: State, ser: Serializer, c: BlockCipher, path: Path,
                             header: Header, events: seq<Event>, settings: Settings): (r: State)
    ensures r.cache == st.cache
    ensures r.files.Keys == st.files.Keys + {path}
    ensures forall q :: q in st.files && q != path ==> r.files[q] == st.files[q]
    ensures |r.files[path]| > 0 && |r.files[path]| % BlockSize == 0
  {
    st.(files := st.files[path := Seal(ser, c, Record(header, events, settings))])
  }

  /**
   * `read_encrypted_dat`: decrypt an existing file with the CALLER's key, decode it and cache
   * its settings; when the file is missing, write the defaults and return them, leaving the
   * cache alone.
   */
  function ReadEncryptedDat(st: State, ser: Serializer, c: BlockCipher, path: Path, key: Block): (r: Loaded)
    ensures r.result.Failure? ==> r.state == st
    ensures path in st.files ==> r.state.files == st.files
    ensures r.result.Success? && path in st.files ==> r.state.cache == Some(r.result.value.settings)
    ensures r.state.cache != st.cache ==> path in st.files && r.result.Success?
    ensures path !in st.files ==> r.result == Success(DefaultRecord) && path in r.state.files
  {
    if path in st.files then
      match Decrypt(c, key, AesIv, st.files[path])
      case Failure(_) => Loaded(st, Failure(CipherFailed))
      case Success(plain) =>
        match ser.decode(plain)
        case None => Loaded(st, Failure(DecodeFailed))
        case Some(rec) => Loaded(StoreSettings(st, rec.settings), Success(rec))
    else
      var st' := WriteEncryptedDat(st, ser, c, path, DefaultHeader, [], DefaultSettings);
      Loaded(st', Success(DefaultRecord))
  }

  /** Writing a triple and reading it back with the header's key returns the triple and caches its settings. */
  lemma WriteThenRead(st: State, ser: Serializer, c: BlockCipher, path: Path,
                      header: Header, events: seq<Event>, settings: Settings)
    requires RoundTrips(ser) && IsPermutation(c)
    ensures var written := WriteEncryptedDat(st, ser, c, path, header, events, settings);
      ReadEncryptedDat(written, ser, c, path, header.aesKey)
        == Loaded(StoreSettings(written, settings), Success(Record(header, events, settings)))
  {
    DecryptEncrypt(c, header.aesKey, AesIv, ser.encode(Record(header, events, settings)));
  }

  /** A missing file is bootstrapped: the defaults are sealed under the IV-valued default key and returned. */
  lemma Bootstrap(st: State, ser: Serializer, c: BlockCipher, path: Path, key: Block)
    requires path !in st.files
    ensures ReadEncryptedDat(st, ser, c, path, key)
      == Loaded(State(st.files[path := Encrypt(c, AesIv, AesIv, ser.encode(DefaultRecord))], st.cache),
                Success(DefaultRecord))
    ensures DefaultRecord.header == Header(1, 0, 1000, 9, 0, AesIv) && DefaultRecord.events == []
    ensures DefaultRecord.settings == Settings(8080, 8000, "127.0.0.1")
  {
  }

  /** The bootstrapped file does not depend on the key the caller passed. */
  lemma BootstrapIgnoresCallerKey(st: State, ser: Serializer, c: BlockCipher, path: Path, k1: Block, k2: Block)
    requires path !in st.files
    ensures ReadEncryptedDat(st, ser, c, path, k1) == ReadEncryptedDat(st, ser, c, path, k2)
  {
  }

  /** After a bootstrap, reading again with the IV constant as key returns the defaults and caches them. */
  lemma BootstrapThenRead(st: State, ser: Serializer, c: BlockCipher, path: Path, key: Block)
    requires RoundTrips(ser) && IsPermutation(c)
    requires path !in st.files
    ensures var first := ReadEncryptedDat(st, ser, c, path, key);
      var second := ReadEncryptedDat(first.state, ser, c, path, AesIv);
      second.result == Success(DefaultRecord) && GetSettings(second.state) == Some(DefaultSettings)
  {
    DecryptEncrypt(c, AesIv, AesIv, ser.encode(DefaultRecord));
  }

  /**
   * Start-up as the program's entry point performs it, reading with the IV constant as key:
   * on the first run the defaults are returned but the slot stays empty; a later process
   * finds the file and the slot holds the default settings.
   */
  lemma FirstAndSecondRun(files: map<Path, seq<byte>>, ser: Serializer, c: BlockCipher, path: Path)
    requires RoundTrips(ser) && IsPermutation(c)
    requires path !in files
    ensures var first := ReadEncryptedDat(Start(files), ser, c, path, AesIv);
      && first.result == Success(DefaultRecord)
      && GetSettings(first.state).None?
      && var second := ReadEncryptedDat(Start(first.state.files), ser, c, path, AesIv);
         second.result == Success(DefaultRecord) && GetSettings(second.state) == Some(DefaultSettings)
  {
    DecryptEncrypt(c, AesIv, AesIv, ser.encode(DefaultRecord));
  }

  /** The last store wins: an earlier store is invisible after a later one. */
  lemma StoreLastWriteWins(st: State, a: Settings, b: Settings)
    ensures StoreSettings(StoreSettings(st, a), b) == StoreSettings(st, b)
  {
  }

  /** A failed load of an existing file changes nothing, the settings slot included. */
  lemma FailedLoadChangesNothing(st: State, ser: Serializer, c: BlockCipher, path: Path, key: Block)
    requires path in st.files
    requires Decrypt(c, key, AesIv, st.files[path]).Failure?
          || ser.decode(Decrypt(c, key, AesIv, st.files[path]).value).None?
    ensures ReadEncryptedDat(st, ser, c, path, key).result.Failure?
    ensures ReadEncryptedDat(st, ser, c, path, key).state == st
  {
  }
}
