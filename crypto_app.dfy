/**
 * The application object: it owns the session history, records every
 * encrypt or decrypt attempt and prints the history. Console input is given
 * to the handlers as parameters and the printed lines are returned.
 */
module CryptoApp {

  import opened XorCipher
  import opened FileOps
  import opened SessionHistory

  /** The output path a handler uses: the typed one, or the input path with the action's suffix. */
  function DefaultOutputPath(action: CryptoAction, inputPath: string, outputLine: string): (r: string)
    ensures outputLine != "" ==> r == outputLine
    ensures outputLine == "" && action == Encrypt ==> r == inputPath + ".enc"
    ensures outputLine == "" && action == Decrypt ==> r == inputPath + ".dec"
    // the chosen path is never blank, and a default never names the input file itself
    ensures r != ""
    ensures outputLine == "" ==> r != inputPath
  {
    if outputLine == "" then
      inputPath + (match action case Encrypt => ".enc" case Decrypt => ".dec")
    else outputLine
  }

  /** The two default paths for one input are different files. */
  lemma DefaultPathsDiffer(inputPath: string)
    ensures DefaultOutputPath(Encrypt, inputPath, "") != DefaultOutputPath(Decrypt, inputPath, "")
  {
    var e := DefaultOutputPath(Encrypt, inputPath, "");
    var d := DefaultOutputPath(Decrypt, inputPath, "");
    assert e[|inputPath| + 1] == 'e' && d[|inputPath| + 1] == 'd';
  }

  class FileCryptoApp {

    /** Every attempt of this session, oldest first. */
    var history: seq<HistoryEntry>

    constructor ()
      ensures history == []
    {
      history := [];
    }

    /** Appends one record at the end; earlier records stay as they were. */
    method AddHistoryEntry(path: string, action: CryptoAction, success: bool)
      modifies this
      ensures history == old(history) + [HistoryEntry(path, action, success)]
    {
      history := history + [HistoryEntry(path, action, success)];
    }

    /** The lines `show_history` prints. */
    method ShowHistory() returns (lines: seq<string>)
      ensures lines == Render(history)
    {
      lines := [""];
      if |history| == 0 {
        lines := lines + [NoHistoryMessage];
        return;
      }
      lines := lines + ["--- History ---"];
      var index := 0;
      while index < |history|
        invariant 0 <= index <= |history|
        invariant |lines| == index + 2
        invariant lines[..2] == ["", "--- History ---"]
        invariant forall k :: 0 <= k < index ==> lines[k + 2] == EntryLine(k, history[k])
      {
        lines := lines + [EntryLine(index, history[index])];
        index := index + 1;
      }
      assert lines == ["", "--- History ---"] + EntryLines(history);
      var summary := TallyActions(history);
      lines := lines + SummaryLines(SummaryLookup(summary, "encrypt"), SummaryLookup(summary, "decrypt"));
    }

    /**
     * The "Encrypt file" menu option: resolves the output path, runs the
     * operation and records the attempt whether or not it succeeded.
     */
    method HandleEncrypt(fs: FileSystem, inputPath: string, outputLine: string, password: seq<byte>)
      returns (after: FileSystem, success: bool)
      modifies this
      ensures var effect := EncryptFile(fs, inputPath, DefaultOutputPath(Encrypt, inputPath, outputLine), password);
              success == effect.outcome.Pass? && after == effect.after
      ensures history == old(history) + [HistoryEntry(inputPath, Encrypt, success)]
    {
      var outputPath := outputLine;
      if outputPath == "" {
        outputPath := inputPath + ".enc";
      }
      var effect := EncryptFile(fs, inputPath, outputPath, password);
      success := effect.outcome.Pass?;
      after := effect.after;
      AddHistoryEntry(inputPath, Encrypt, success);
    }

    /** The "Decrypt file" menu option. */
    method HandleDecrypt(fs: FileSystem, inputPath: string, outputLine: string, password: seq<byte>)
      returns (after: FileSystem, success: bool)
      modifies this
      ensures var effect := DecryptFile(fs, inputPath, DefaultOutputPath(Decrypt, inputPath, outputLine), password);
              success == effect.outcome.Pass? && after == effect.after
      ensures history == old(history) + [HistoryEntry(inputPath, Decrypt, success)]
    {
      var outputPath := outputLine;
      if outputPath == "" {
        outputPath := inputPath + ".dec";
      }
      var effect := DecryptFile(fs, inputPath, outputPath, password);
      success := effect.outcome.Pass?;
      after := effect.after;
      AddHistoryEntry(inputPath, Decrypt, success);
    }
  }

  /**
   * A session that encrypts a missing file and then shows the history: the
   * attempt is a read failure, no file is written, and one failed "Encrypt"
   * record is printed.
   */
  method MissingInputSession(fs: FileSystem, inputPath: string, password: seq<byte>)
    returns (after: FileSystem, lines: seq<string>)
    requires inputPath !in fs.files
    ensures after == fs
    ensures lines == Render([HistoryEntry(inputPath, Encrypt, false)])
    ensures |lines| == 7 && EndsWith(lines[2], "Failed")
  {
    var app := new FileCryptoApp();
    var success;
    after, success := app.HandleEncrypt(fs, inputPath, "", password);
    lines := app.ShowHistory();
    RenderEntries([HistoryEntry(inputPath, Encrypt, false)], 0);
    EntryLineStatus(0, HistoryEntry(inputPath, Encrypt, false));
  }
}
