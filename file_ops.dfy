/**
 * The file operation façade: `encrypt_file` and `decrypt_file` read a whole
 * input file, refuse an empty password, run the XOR transform with the
 * password bytes as key and write the whole result to the output path.
 *
 * The file system is a value: the contents of every readable file and the
 * set of paths a write to which fails. Each operation returns its outcome and
 * the file system after it.
 */
module FileOps {

  import opened XorCipher

  /** The three ways an operation can fail, in place of the source's message strings. */
  datatype CryptoError = ReadFailure | EmptyPassword | WriteFailure

  datatype Outcome = Pass | Fail(error: CryptoError)

  datatype FileSystem = FileSystem(files: map<string, seq<byte>>, unwritable: set<string>)

  /** What an operation reports, and the file system it leaves behind. */
  datatype Effect = Effect(outcome: Outcome, after: FileSystem)

  datatype Option<T> = None | Some(value: T)

  /** `fs::read`: the whole contents, or nothing when the path cannot be read. */
  function ReadFile(fs: FileSystem, path: string): Option<seq<byte>> {
    if path in fs.files then Some(fs.files[path]) else None
  }

  /** `fs::write`: creates or overwrites the file, or fails on an unwritable path. */
  function WriteFile(fs: FileSystem, path: string, bytes: seq<byte>): Option<FileSystem> {
    if path in fs.unwritable then None else Some(fs.(files := fs.files[path := bytes]))
  }

  /** `encrypt_file`: read, check the password, transform, write. */
  function EncryptFile(fs: FileSystem, inputPath: string, outputPath: string, password: seq<byte>): (r: Effect)
    // the read comes first: an unreadable input is a read failure whatever the password
    ensures inputPath !in fs.files ==> r == Effect(Fail(ReadFailure), fs)
    ensures inputPath in fs.files && password == [] ==> r == Effect(Fail(EmptyPassword), fs)
    ensures inputPath in fs.files && password != [] && outputPath in fs.unwritable ==>
              r == Effect(Fail(WriteFailure), fs)
    ensures r.outcome.Pass? <==> inputPath in fs.files && password != [] && outputPath !in fs.unwritable
    // a failed operation leaves every file as it was
    ensures r.outcome.Fail? ==> r.after == fs
    // on success only the output file changes; it holds the transformed input, byte for byte
    ensures r.outcome.Pass? ==>
              && r.after.unwritable == fs.unwritable
              && r.after.files.Keys == fs.files.Keys + {outputPath}
              && (forall p :: p in fs.files && p != outputPath ==> r.after.files[p] == fs.files[p])
              && r.after.files[outputPath] == XorWithKey(fs.files[inputPath], password)
              && |r.after.files[outputPath]| == |fs.files[inputPath]|
  {
    match ReadFile(fs, inputPath)
    case None => Effect(Fail(ReadFailure), fs)
    case Some(data) =>
      if password == [] then Effect(Fail(EmptyPassword), fs)
      else
        var encrypted := XorWithKey(data, password);
        match WriteFile(fs, outputPath, encrypted)
        case None => Effect(Fail(WriteFailure), fs)
        case Some(written) => Effect(Pass, written)
  }

  /** `decrypt_file`: the same steps as `encrypt_file`, since the transform is its own inverse. */
  function DecryptFile(fs: FileSystem, inputPath: string, outputPath: string, password: seq<byte>): (r: Effect)
    ensures inputPath !in fs.files ==> r == Effect(Fail(ReadFailure), fs)
    ensures inputPath in fs.files && password == [] ==> r == Effect(Fail(EmptyPassword), fs)
    ensures inputPath in fs.files && password != [] && outputPath in fs.unwritable ==>
              r == Effect(Fail(WriteFailure), fs)
    ensures r.outcome.Pass? <==> inputPath in fs.files && password != [] && outputPath !in fs.unwritable
    ensures r.outcome.Fail? ==> r.after == fs
    ensures r.outcome.Pass? ==>
              && r.after.unwritable == fs.unwritable
              && r.after.files.Keys == fs.files.Keys + {outputPath}
              && (forall p :: p in fs.files && p != outputPath ==> r.after.files[p] == fs.files[p])
              && r.after.files[outputPath] == XorWithKey(fs.files[inputPath], password)
              && |r.after.files[outputPath]| == |fs.files[inputPath]|
  {
    match ReadFile(fs, inputPath)
    case None => Effect(Fail(ReadFailure), fs)
    case Some(data) =>
      if password == [] then Effect(Fail(EmptyPassword), fs)
      else
        var decrypted := XorWithKey(data, password);
        match WriteFile(fs, outputPath, decrypted)
        case None => Effect(Fail(WriteFailure), fs)
        case Some(written) => Effect(Pass, written)
  }

  /** The two operations differ only in the label their caller gives them. */
  lemma DecryptIsEncrypt(fs: FileSystem, inputPath: string, outputPath: string, password: seq<byte>)
    ensures DecryptFile(fs, inputPath, outputPath, password) == EncryptFile(fs, inputPath, outputPath, password)
  {
  }

  /**
   * Decrypting an encrypted file with the same password restores the original
   * contents, wherever the result is written (the input's own path included).
   */
  lemma FileRoundTrip(fs: FileSystem, plainPath: string, cipherPath: string, outPath: string, password: seq<byte>)
    requires EncryptFile(fs, plainPath, cipherPath, password).outcome.Pass?
    requires outPath !in fs.unwritable
    ensures var mid := EncryptFile(fs, plainPath, cipherPath, password).after;
            var back := DecryptFile(mid, cipherPath, outPath, password);
            back.outcome.Pass? && back.after.files[outPath] == fs.files[plainPath]
  {
    var mid := EncryptFile(fs, plainPath, cipherPath, password).after;
    assert mid.files[cipherPath] == XorWithKey(fs.files[plainPath], password);
    XorInvolution(fs.files[plainPath], password);
  }

  /** An empty input file and a non-empty password give an empty output file and success. */
  lemma EmptyFileScenario(fs: FileSystem, inputPath: string, outputPath: string, password: seq<byte>)
    requires inputPath in fs.files && fs.files[inputPath] == []
    requires password != [] && outputPath !in fs.unwritable
    ensures var r := EncryptFile(fs, inputPath, outputPath, password);
            r.outcome == Pass && r.after.files[outputPath] == []
  {
  }
}
