# File encryptor: a Dafny model

This project models the core of a small interactive file encryptor written in
Rust. The tool "encrypts" a file with a repeating-key XOR. Each byte `i` of
the file is combined by exclusive-or with byte `i mod L` of the password,
where `L` is its length. Because XOR is its own inverse, the same transform
also decrypts. The tool also keeps an in-memory history of the session's
attempts and can print it with a per-action summary.

Modules:

- `XorCipher` (`xor_cipher.dfy`): the keystream `KeyByteAt` and the transform
  `XorWithKey` over `seq<bv8>`. Lemmas prove that it is its own inverse, that
  it is injective, that the keystream is periodic, that each output byte
  depends only on its own position, that key-aligned concatenation splits,
  and that a known plaintext reveals the keystream.
- `FileOps` (`file_ops.dfy`): `encrypt_file` and `decrypt_file` as functions
  over an abstract file system. The file system is a value holding a map from
  paths to contents and a set of unwritable paths. Each function returns a
  tagged outcome (`Pass`, or `Fail` with `ReadFailure`, `EmptyPassword` or
  `WriteFailure`) together with the file system after the call.
- `SessionHistory` (`session_history.dfy`): history records, the per-action
  counts, the tally loop of `show_history` over a `map<string, nat>`, and
  `Render`, the exact lines that `show_history` prints.
- `Decimal` (`decimal.dfy`): the decimal text of the 1-based entry numbers,
  with its parse-back lemma.
- `CryptoApp` (`crypto_app.dfy`): the class `FileCryptoApp`, which owns the
  `history` sequence. It has the constructor, `AddHistoryEntry`,
  `ShowHistory`, and the two menu handlers, which take the typed lines as
  parameters. Also here: the default-output-path rule.

The source and the design description disagree in one place, and the model
follows the source. The description says an empty password fails before any
file I/O. The source reads the input first (`src/main.rs:184`) and checks the
password only after that (`src/main.rs:185-188`). So in the model, a missing
input with an empty password reports `ReadFailure`. An empty password still
never reaches the write.

`xor_with_key` requires `|key| > 0 || |data| == 0`. The Rust iterator only
evaluates `i % key.len()` for positions that exist, so an empty key on empty
data returns an empty vector and does not panic.

## Model

| member | source | states |
|---|---|---|
| XorCipher.XorWithKey | src/main.rs:216-224 | output has exactly `|data|` bytes (zero for empty data); byte `i` is `data[i]` XOR the keystream byte `key[i mod |key|]`; accepted with an empty key only when the data is empty |
| XorCipher.XorInvolution | src/main.rs:216-224 | transforming twice with the same key returns the original data, which is what lets decryption reuse the transform |
| XorCipher.XorInjective | src/main.rs:216-224 | under one key, two inputs give equal outputs if and only if they are equal |
| XorCipher.KeyStreamPeriodic | src/main.rs:220 | the keystream byte at `i + |key|` equals the one at `i` |
| XorCipher.XorPrefix | src/main.rs:217-222 | transforming a prefix gives the prefix of the transformed data: no byte depends on later bytes |
| XorCipher.XorAlignedConcat | src/main.rs:219-222 | when the first part is a multiple of the key length long, the transform of a concatenation is the concatenation of the transforms |
| XorCipher.XorRevealsKeyStream | src/main.rs:221 | ciphertext byte XOR plaintext byte gives the keystream byte at that position |
| XorCipher.XorAbcExample | src/main.rs:216-224 | "ABC" under password "K" becomes 0A 09 08, and 0A 09 08 becomes "ABC" again |
| Decimal.NatToString | src/main.rs:149-155 | the number text is non-empty, all digits, and has no leading zero |
| Decimal.ParseNatToString | src/main.rs:149-155 | parsing the decimal text of `n` gives `n` back |
| FileOps.EncryptFile | src/main.rs:183-196 | read failure whatever the password; then empty password with nothing written; then write failure; success exactly when the input is readable, the password is non-empty and the output writable; a failure leaves every file unchanged; on success only the output file changes, and it holds the transformed input, same length as the input |
| FileOps.DecryptFile | src/main.rs:200-213 | the same error order and outcome as encryption, with the same transform |
| FileOps.DecryptIsEncrypt | src/main.rs:198-213 | decrypting and encrypting produce the same outcome and the same files for the same arguments |
| FileOps.FileRoundTrip | src/main.rs:183-213 | after a successful encryption, decrypting the output with the same password to any writable path succeeds and restores the original contents |
| FileOps.EmptyFileScenario | src/main.rs:183-196 | an empty input and a non-empty password succeed and write an empty output file |
| SessionHistory.CountAction | src/main.rs:158-165 | the count for an action never exceeds the number of entries |
| SessionHistory.CountAppend | src/main.rs:164 | appending an entry adds one to exactly its own action's count, successful or not |
| SessionHistory.CountsPartition | src/main.rs:158-176 | the encrypt count plus the decrypt count equals the history length |
| SessionHistory.CountIgnoresSuccess | src/main.rs:159-165 | histories with the same actions have the same counts, whatever their success flags |
| SessionHistory.TallyActions | src/main.rs:158-176 | the map lookup with 0 for a missing key gives each action's count; only the two action keys appear, each with a positive count |
| SessionHistory.EntryLineNumber | src/main.rs:149-155 | the number at the head of entry line `i` is `i + 1` |
| SessionHistory.EntryLineStatus | src/main.rs:147-155 | an entry line ends in "Success" if and only if the attempt succeeded, and in "Failed" if and only if it did not |
| SessionHistory.RenderEntries | src/main.rs:141-176 | a non-empty history prints `|history| + 6` lines; line `i + 2` is entry `i`'s line, numbered `i + 1` and ending in "Success" exactly when that entry succeeded |
| SessionHistory.RenderNoHistory | src/main.rs:135-139 | the empty history prints only the "no history" message, and that message appears if and only if the history is empty |
| SessionHistory.SummaryScenario | src/main.rs:158-176 | one successful encryption and one failed decryption are tallied as one of each, and the summary says so |
| CryptoApp.DefaultOutputPath | src/main.rs:71-74 | a typed output path is kept; a blank one becomes the input plus ".enc" for encryption or ".dec" for decryption; the result is never blank and a default never names the input |
| CryptoApp.DefaultPathsDiffer | src/main.rs:102-105 | the default encryption and decryption outputs of one input are different paths |
| CryptoApp.FileCryptoApp.constructor | src/main.rs:27-29 | a new application has an empty history |
| CryptoApp.FileCryptoApp.AddHistoryEntry | src/main.rs:124-131 | the history becomes the old history followed by exactly one record with the given path, action and flag |
| CryptoApp.FileCryptoApp.ShowHistory | src/main.rs:134-177 | returns exactly `Render(history)`: the entry loop and the map tally agree with the specification |
| CryptoApp.FileCryptoApp.HandleEncrypt | src/main.rs:62-90 | runs the encryption on the resolved output path; success is the outcome's; exactly one record with the input path, `Encrypt` and that flag is appended, even on failure |
| CryptoApp.FileCryptoApp.HandleDecrypt | src/main.rs:93-121 | the same for decryption, with the ".dec" default and a `Decrypt` record |
| CryptoApp.MissingInputSession | src/main.rs:62-90 | encrypting a missing file writes nothing, and the history then prints one entry that ends in "Failed" |

## Left out

- Console I/O is not modelled: `read_line_trimmed`, `flush_stdout`, the `println!` calls and prompt order. The handlers take the typed input path, output line and password as parameters. `ShowHistory` returns the lines it would print.
- Whitespace trimming of typed lines is not modelled; inputs arrive already trimmed.
- The menu loop `run` and `main` are not modelled; they only dispatch on the typed choice.
- Real file system behaviour is not modelled. A read fails exactly when the path has no entry in the file map, so "missing", "permission denied" and "I/O error" are one case. A write fails exactly when the path is in the unwritable set. A write that fails after writing part of the file is not represented: a failed write changes nothing.
- Error message text and OS error causes are replaced by the three tags `ReadFailure`, `EmptyPassword` and `WriteFailure`.
- The UTF-8 encoding behind `password.as_bytes()` is not modelled; the password is given as bytes.
- `HashMap` internals are not modelled; the tally is a Dafny `map<string, nat>` with the same insert-or-increment and lookup-or-zero behaviour.
- `usize` overflow of the entry number `index + 1` and of the tallies is not modelled; counts are unbounded naturals.
- Determinism needs no lemma: every Dafny function gives equal results for equal arguments.
