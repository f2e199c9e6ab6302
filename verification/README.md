# Encrypted settings store and logger rules — a Dafny model

This project models the persistence core of a small Rust service (`src/dat.rs`) and the
pure string rules of its logger (`src/customs.rs`), and proves properties of the model.

The persistence core keeps one record per file. A record is a header, a list of
timestamped events and the settings block (ports and host). It is serialised, padded with
PKCS#7 (section 6.3 of RFC 5652) and encrypted with AES-128 in CBC mode (section 6.2 of
NIST SP 800-38A) from the fixed IV `"abcdef0123456789"`. Reading a file decrypts it with
the caller's key and decodes it, then caches the settings in a process-wide slot. When the
file cannot be opened, the read writes a default record and returns it instead. A separate
fixed-width big-endian codec reads and writes the 44-byte header on its own.

The logger files each log target under the first keyword it contains, in the order HTTP,
POSTGRES, WEBSOCKET, DATABASE, DAT. It prints the label `[CAT:LEVEL]`, or `[LEVEL]` when no
keyword matches. It names the calling function after the first backtrace frame whose name
mentions neither "log" nor "function", with "Server::" removed and the name cut at the
first "::".

Files:

- `wrappers.dfy` — `Option` and `Result`.
- `bytes.dfy` — `byte`, `u16`/`u32`/`u64`, 16-byte `Block`, big-endian integers, byte XOR.
- `records.dfy` — `Event`, `Header`, `Settings`, the record triple, `AES_IV` and the defaults.
- `header_codec.dfy` — `Header::read` and `Header::write`.
- `pkcs7.dfy` — padding and unpadding.
- `cbc.dfy` — CBC chaining over an abstract block cipher, `encrypt_vec` and `decrypt_vec`.
- `dat.dfy` — the file store, the bootstrap and the settings cache.
- `text.dfy` — `contains`, `replace` and `split(..).next()` on strings.
- `customs.dfy` — level filter, category, label and frame-name selection.

Modelling choices:

- The file system is a `map<string, seq<byte>>`. A path that is absent is a file that
  cannot be opened.
- The settings cache is a field of the same state value. Every operation returns the new
  state.
- The AES block transformation and the record serialiser are parameters. A block cipher is
  a pair of functions, and `Cbc.IsPermutation` states that they invert each other under
  every key. A serialiser is an encoder and a decoder that may refuse its input, and
  `Dat.RoundTrips` states that decoding an encoding gives the record back. Lemmas that need
  these laws take them as preconditions.
- A backtrace is a sequence of frames. Each frame is the name of its first symbol, or
  `None` when the frame has no named first symbol: it has no symbol at all, or its first
  symbol has no name.

Three behaviours of the code are easy to miss. The model follows the code in each:

- The bootstrap encrypts the defaults under the default header's key, which is the IV
  constant. It does not use the caller's key (`src/dat.rs:102`, `src/dat.rs:109`,
  `src/dat.rs:44`).
- Any failure to open the file triggers the bootstrap, not only a missing file
  (`src/dat.rs:86-87`).
- The bootstrap path does not store the default settings in the cache. Only a successful
  read of an existing file does (`src/dat.rs:93`). A consequence is proved in
  `Dat.FirstAndSecondRun`: on a first run, the settings slot is still empty after start-up
  returns the defaults.

## Model

| member | source | states |
|---|---|---|
| Bytes.FromToBigEndian | src/dat.rs:54-58 | reading an n-byte big-endian integer from its n-byte encoding gives the integer back |
| Bytes.ToFromBigEndian | src/dat.rs:74-78 | any n bytes are the big-endian encoding of the integer they read as, so the encoding is onto |
| Bytes.BigEndianDigits | src/dat.rs:74-78 | byte i of an n-byte encoding of x is digit (x / 256^(n-1-i)) mod 256, most significant byte first |
| HeaderCodec.ReadBigEndian | src/dat.rs:54-58 | a fixed-width read succeeds exactly when n bytes remain, and the input is the value's encoding followed by the rest |
| HeaderCodec.ReadKey | src/dat.rs:59-60 | the key read succeeds exactly when 16 bytes remain, and takes them verbatim |
| HeaderCodec.Write | src/dat.rs:73-81 | the header encoding is always exactly 44 bytes |
| HeaderCodec.WriteLayout | src/dat.rs:73-81 | bytes 0-3, 4-11, 12-19, 20-23 and 24-27 read back big-endian as version, count, resolution, size and type, and bytes 28-43 are the key |
| HeaderCodec.ReadWrite | src/dat.rs:53-70 | reading a written header followed by any bytes returns the header and exactly those remaining bytes |
| HeaderCodec.Read | src/dat.rs:53-70 | reading fails if and only if fewer than 44 bytes are available, and a successful read consumed exactly the encoding of the header it returns |
| Pkcs7.PadLength | src/dat.rs:45 | between 1 and 16 padding bytes are added, and the padded length is a multiple of 16 |
| Pkcs7.Pad | src/dat.rs:45 | padding keeps the plaintext as a prefix and appends k bytes of value k, reaching (n/16 + 1) * 16 bytes |
| Pkcs7.Unpad | src/dat.rs:91 | on block-aligned input, unpadding returns p if and only if the input is the padding of p |
| Pkcs7.UnpadRejectsMalformed | src/dat.rs:91 | block-aligned input that is not the padding of any plaintext is refused |
| Cbc.CbcEncrypt | src/dat.rs:45 | CBC encryption preserves the length of block-aligned input |
| Cbc.CbcDecrypt | src/dat.rs:91 | CBC decryption preserves the length of block-aligned input |
| Cbc.CbcEncryptChaining | src/dat.rs:44-45 | ciphertext block j is the encryption of plaintext block j XOR ciphertext block j-1, starting from the IV |
| Cbc.CbcDecryptChaining | src/dat.rs:90-91 | plaintext block j is the decryption of ciphertext block j XOR ciphertext block j-1, starting from the IV |
| Cbc.CbcDecryptEncrypt | src/dat.rs:90-91 | CBC decryption undoes CBC encryption under the same key and IV |
| Cbc.CbcEncryptDecrypt | src/dat.rs:44-45 | CBC encryption undoes CBC decryption under the same key and IV |
| Cbc.Encrypt | src/dat.rs:44-45 | the ciphertext is (n/16 + 1) * 16 bytes long, a positive multiple of the block size |
| Cbc.Decrypt | src/dat.rs:90-91 | a ciphertext that is not a whole number of blocks is refused |
| Cbc.DecryptEncrypt | src/dat.rs:90-91 | decrypting with the encryption key and IV returns the plaintext exactly |
| Cbc.EncryptDecrypt | src/dat.rs:90-91 | every ciphertext that decrypts is the encryption of what it decrypts to |
| Cbc.DecryptRejectsBadPadding | src/dat.rs:91 | a block-aligned ciphertext whose CBC decryption is not padded plaintext is refused |
| Dat.Start | src/dat.rs:114-116 | the settings slot starts empty |
| Dat.StoreSettings | src/dat.rs:119-122 | after a store, the slot holds exactly the stored settings and the files are untouched |
| Dat.GetSettings | src/dat.rs:124-128 | storing what get returns changes nothing, and an empty result means the slot is as a fresh process has it |
| Dat.GetReturnsLastStored | src/dat.rs:114-128 | a fresh process reads an empty slot, and after a store it reads exactly the stored settings |
| Dat.StoreLastWriteWins | src/dat.rs:119-122 | of two stores, only the later one is visible |
| Dat.Seal | src/dat.rs:42-45 | the stored bytes are a positive whole number of blocks |
| Dat.WriteEncryptedDat | src/dat.rs:41-49 | a write creates or replaces the file at the path, leaves every other file and the cache alone, and stores whole blocks |
| Dat.ReadEncryptedDat | src/dat.rs:85-112 | a failed read changes nothing; a read of an existing file never changes files; only a successful read of an existing file changes the cache, and it caches the settings it returns; a missing file returns the defaults and creates the file |
| Dat.WriteThenRead | src/dat.rs:85-94 | writing a triple and reading it back with the header's own key returns the triple and caches its settings |
| Dat.Bootstrap | src/dat.rs:95-111 | a missing file is created holding the defaults sealed under the IV as key, the defaults (version 1, count 0, resolution 1000, size 9, type 0, no events, ports 8080 and 8000, host 127.0.0.1) are returned, and the cache is unchanged |
| Dat.BootstrapIgnoresCallerKey | src/dat.rs:109 | the bootstrap's outcome does not depend on the key the caller passed |
| Dat.BootstrapThenRead | src/dat.rs:102-109 | after a bootstrap, a read with the IV constant as key returns the defaults and caches the default settings |
| Dat.FirstAndSecondRun | src/main.rs:10-16 | start-up's read on a first run returns the defaults with the slot still empty; a later process's read fills it with the default settings |
| Dat.FailedLoadChangesNothing | src/dat.rs:90-93 | a decrypt or decode failure returns an error and leaves files and cache unchanged |
| Customs.Enabled | src/customs.rs:67-69 | every level is enabled |
| Customs.Category | src/customs.rs:78-85 | the category is the first keyword, in the order HTTP, POSTGRES, WEBSOCKET, DATABASE, DAT, that the target contains, and empty if and only if it contains none |
| Customs.HttpWins | src/customs.rs:78-79 | a target containing "HTTP" is filed as HTTP whatever else it contains |
| Customs.UncategorisedLabel | src/customs.rs:84-88 | a target without any keyword gets the empty category and the label `[LEVEL]` |
| Customs.Label | src/customs.rs:87-91 | a label determines its colon-free category and its level: `[LEVEL]` for the empty category, `[CAT:LEVEL]` otherwise |
| Customs.CategoryLabelReadsBack | src/customs.rs:78-91 | the label of any classified target reads back as that category and level |
| Customs.HttpAndPostgresTargets | src/customs.rs:153-189 | the `http!` and `postgres!` targets are filed as HTTP and POSTGRES |
| Customs.WebsocketTarget | src/customs.rs:191-208 | the `ws!` target is filed as WEBSOCKET |
| Customs.SecureWebsocketTarget | src/customs.rs:210-227 | the `wss!` target "WEBSOCKET:SECURE" is filed as WEBSOCKET |
| Customs.DatabaseTarget | src/customs.rs:229-246 | "DATABASE" contains "DAT" but is filed as DATABASE, which is tried first |
| Customs.DatTarget | src/customs.rs:248-265 | the `datl!` target "DAT" is filed as DAT |
| Customs.ShortName | src/customs.rs:56-57 | the shortened name is the "Server::"-free name cut at its first "::": a prefix with no "::" starting inside it, followed by "::" unless the whole name was kept; for a name without "Server::" the same holds of the name itself |
| Customs.FunctionName | src/customs.rs:50-64 | the result is None if and only if no frame qualifies; otherwise it is the shortened name of the first qualifying frame |
| Customs.CallerName | src/customs.rs:76 | the function column is the shortened name of the first qualifying frame, or "unknown" when no frame qualifies; any value other than "unknown" contains no "::" |
| Text.ContainsIffOccurs | src/customs.rs:55 | the left-to-right scan finds a pattern if and only if it occurs at some index |
| Text.ReplaceAll | src/customs.rs:56 | replacing a pattern that does not occur leaves the string unchanged |
| Text.BeforeFirst | src/customs.rs:57 | the result is the prefix of the string before the first occurrence of the separator: no occurrence starts inside it, and the separator starts right after it unless the whole string was taken |

## Left out

- The AES-128 block transformation (FIPS 197) is foreign code. It is a parameter with only the permutation law assumed.
- The serialiser's wire layout is not modelled, because its library is not part of this model. It is a parameter with only the round-trip law assumed. Serialisation failure is also not modelled: it cannot arise for these types.
- Pkcs7.Unpad: accepts a final byte k with 1 <= k <= 16, as section 6.3 of RFC 5652 describes. The padding crate's own bound on k is not part of this model. It agrees with this one on every input produced by padding.
- Tamper and wrong-key behaviour: with an abstract block cipher, nothing can be proved about decrypting under another key or a modified ciphertext. Only the refusal of misaligned or badly padded input is proved.
- HeaderCodec.Read, HeaderCodec.Write: the stream is an in-memory byte sequence, not an arbitrary `Read` / `Write`. So the only read error is running out of bytes (`UnexpectedEof`). Any other I/O error the reader passes on is not modelled, and a failing writer is not modelled either: `Write` always succeeds.
- File-system errors: failing writes, failing reads after a successful open, truncation semantics and the different kinds of open error are not modelled. Every write succeeds, and every open failure is an absent path.
- Text.ReplaceAll: the contract states only that a string without the pattern comes back unchanged. The leftmost, non-overlapping replacement is stated by its definition alone.
- Customs.ShortName: the contract states the cut at the first "::" of the name after every "Server::" is removed. Which occurrences of "Server::" are removed is stated by the definition of `Text.ReplaceAll` alone (see its line above).
- The key-length error of the cipher constructor cannot occur, because keys and the IV are 16-byte blocks by type.
- The lock around the settings slot, and lock poisoning, are not modelled. The slot is single-threaded state.
- The logger's I/O is not modelled: log-file naming, the one-hour reuse check against the wall clock (`src/customs.rs:26-31`), colours, printing, writing the log line, and `init` and logger registration.
- The full log line (timestamp, file and line) is not modelled. It needs the clock and integer printing.
- Capturing the backtrace is not modelled. `FunctionName` takes the frame names as given. Which frames the backtrace library itself puts first is not modelled.
- The logging macros are modelled only through the target strings they pass.
- The HTTP server and its endpoints perform network lookups, bind sockets and return constant JSON. They are not modelled.
- Process wiring in `src/main.rs` is modelled only for the start-up read, in `Dat.FirstAndSecondRun`.
