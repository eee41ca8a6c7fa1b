/**
 * The session history: the record of each encrypt or decrypt attempt, the
 * per-action tallies and the text `show_history` prints.
 */
module SessionHistory {

  import opened Decimal

  datatype CryptoAction = Encrypt | Decrypt

  /** One attempt: the input path, the action, and whether it succeeded. */
  datatype HistoryEntry = HistoryEntry(filePath: string, action: CryptoAction, success: bool)

  /** How many entries carry `action`, successful or not. */
  function CountAction(entries: seq<HistoryEntry>, action: CryptoAction): (n: nat)
    ensures n <= |entries|
  {
    if entries == [] then 0
    else CountAction(entries[..|entries| - 1], action) + (if entries[|entries| - 1].action == action then 1 else 0)
  }

  /** Appending an entry adds one to the count of its action, whatever its outcome. */
  lemma CountAppend(entries: seq<HistoryEntry>, e: HistoryEntry, action: CryptoAction)
    ensures CountAction(entries + [e], action) == CountAction(entries, action) + (if e.action == action then 1 else 0)
  {
    assert (entries + [e])[..|entries|] == entries;
  }

  /** Every entry is tallied under exactly one action. */
  lemma {:induction false} CountsPartition(entries: seq<HistoryEntry>)
    ensures CountAction(entries, Encrypt) + CountAction(entries, Decrypt) == |entries|
  {
    if entries != [] {
      CountsPartition(entries[..|entries| - 1]);
    }
  }

  /** The tallies depend on the actions alone: failed attempts count like successful ones. */
  lemma {:induction false} CountIgnoresSuccess(a: seq<HistoryEntry>, b: seq<HistoryEntry>, action: CryptoAction)
    requires |a| == |b|
    requires forall i :: 0 <= i < |a| ==> a[i].action == b[i].action
    ensures CountAction(a, action) == CountAction(b, action)
  {
    if a != [] {
      CountIgnoresSuccess(a[..|a| - 1], b[..|b| - 1], action);
    }
  }

  /** The `HashMap` key under which `show_history` tallies an action. */
  function ActionKey(action: CryptoAction): string {
    match action
    case Encrypt => "encrypt"
    case Decrypt => "decrypt"
  }

  /** `summary.get(key).cloned().unwrap_or(0)`. */
  function SummaryLookup(summary: map<string, nat>, key: string): nat {
    if key in summary then summary[key] else 0
  }

  /** The tally loop of `show_history`: one `entry(key).or_insert(0) += 1` per entry. */
  method TallyActions(entries: seq<HistoryEntry>) returns (summary: map<string, nat>)
    ensures SummaryLookup(summary, "encrypt") == CountAction(entries, Encrypt)
    ensures SummaryLookup(summary, "decrypt") == CountAction(entries, Decrypt)
    ensures summary.Keys <= {"encrypt", "decrypt"}
    ensures forall k :: k in summary ==> summary[k] > 0
  {
    summary := map[];
    var i := 0;
    while i < |entries|
      invariant 0 <= i <= |entries|
      invariant SummaryLookup(summary, "encrypt") == CountAction(entries[..i], Encrypt)
      invariant SummaryLookup(summary, "decrypt") == CountAction(entries[..i], Decrypt)
      invariant summary.Keys <= {"encrypt", "decrypt"}
      invariant forall k :: k in summary ==> summary[k] > 0
    {
      var key := ActionKey(entries[i].action);
      var current := if key in summary then summary[key] else 0;
      summary := summary[key := current + 1];
      assert "encrypt" != "decrypt" by { assert "encrypt"[0] != "decrypt"[0]; }
      assert entries[..i + 1] == entries[..i] + [entries[i]];
      CountAppend(entries[..i], entries[i], Encrypt);
      CountAppend(entries[..i], entries[i], Decrypt);
      i := i + 1;
    }
    assert entries[..i] == entries;
  }

  // written as two literals so that the verifier can look inside the first one
  const NoHistoryMessage := "No history yet." + " Try encrypting or decrypting a file first."

  function ActionLabel(action: CryptoAction): string {
    match action
    case Encrypt => "Encrypt"
    case Decrypt => "Decrypt"
  }

  function StatusLabel(success: bool): string {
    if success then "Success" else "Failed"
  }

  /** The line printed for the entry at zero-based position `index`. */
  function EntryLine(index: nat, e: HistoryEntry): string {
    NatToString(index + 1) + ". [" + ActionLabel(e.action) + "] " + e.filePath + " -> " + StatusLabel(e.success)
  }

  function EntryLines(entries: seq<HistoryEntry>): seq<string> {
    seq(|entries|, i requires 0 <= i < |entries| => EntryLine(i, entries[i]))
  }

  function SummaryLines(encrypted: nat, decrypted: nat): seq<string> {
    ["", "Summary this session:",
     "Encrypted: " + NatToString(encrypted) + " file(s)",
     "Decrypted: " + NatToString(decrypted) + " file(s)"]
  }

  /** Every line `show_history` prints for the given history, the leading blank line included. */
  function Render(entries: seq<HistoryEntry>): seq<string> {
    if entries == [] then ["", NoHistoryMessage]
    else ["", "--- History ---"] + EntryLines(entries)
         + SummaryLines(CountAction(entries, Encrypt), CountAction(entries, Decrypt))
  }

  /** The number at the head of a line. */
  function LineNumber(line: string): nat {
    ParseDecimal(DigitPrefix(line))
  }

  predicate EndsWith(s: string, suffix: string) {
    |suffix| <= |s| && s[|s| - |suffix|..] == suffix
  }

  /** Entry lines are numbered from one. */
  lemma EntryLineNumber(index: nat, e: HistoryEntry)
    ensures LineNumber(EntryLine(index, e)) == index + 1
  {
    var digits := NatToString(index + 1);
    var rest := ". [" + ActionLabel(e.action) + "] " + e.filePath + " -> " + StatusLabel(e.success);
    assert EntryLine(index, e) == digits + rest;
    DigitPrefixOfDigits(digits, rest);
    ParseNatToString(index + 1);
  }

  /** An entry line ends in "Success" exactly when the attempt succeeded, and in "Failed" otherwise. */
  lemma EntryLineStatus(index: nat, e: HistoryEntry)
    ensures EndsWith(EntryLine(index, e), "Success") <==> e.success
    ensures EndsWith(EntryLine(index, e), "Failed") <==> !e.success
  {
    var line := EntryLine(index, e);
    var head := NatToString(index + 1) + ". [" + ActionLabel(e.action) + "] " + e.filePath + " ->";
    if e.success {
      assert line == head + " Success";
      assert line[|line| - 6..] == "uccess";
    } else {
      assert line == head + " Failed";
      assert line[|line| - 7..] == " Failed";
    }
  }

  /**
   * A non-empty history renders as a header, one line per entry in insertion
   * order carrying its position from one and its outcome, then the summary.
   */
  lemma RenderEntries(entries: seq<HistoryEntry>, i: nat)
    requires i < |entries|
    ensures |Render(entries)| == |entries| + 6
    ensures Render(entries)[i + 2] == EntryLine(i, entries[i])
    ensures LineNumber(Render(entries)[i + 2]) == i + 1
    ensures EndsWith(Render(entries)[i + 2], "Success") <==> entries[i].success
  {
    EntryLineNumber(i, entries[i]);
    EntryLineStatus(i, entries[i]);
  }

  /** Entry lines begin with a digit. */
  lemma EntryLineStartsWithDigit(index: nat, e: HistoryEntry)
    ensures |EntryLine(index, e)| > 0 && IsDigit(EntryLine(index, e)[0])
  {
    var digits := NatToString(index + 1);
    assert EntryLine(index, e)[0] == digits[0];
  }

  /** No entry line is the "no history" message: entry lines begin with a digit. */
  lemma EntryLinesNotMessage(entries: seq<HistoryEntry>)
    ensures NoHistoryMessage !in EntryLines(entries)
  {
    assert NoHistoryMessage[0] == 'N';
    forall k | 0 <= k < |entries|
      ensures EntryLines(entries)[k] != NoHistoryMessage
    {
      EntryLineStartsWithDigit(k, entries[k]);
    }
  }

  /** No summary line is the "no history" message. */
  lemma SummaryLinesNotMessage(encrypted: nat, decrypted: nat)
    ensures NoHistoryMessage !in SummaryLines(encrypted, decrypted)
  {
    var lines := SummaryLines(encrypted, decrypted);
    assert NoHistoryMessage[0] == 'N' && |NoHistoryMessage| > 0;
    assert lines[2][0] == 'E' && lines[3][0] == 'D';
  }

  /** The "no history" message is printed exactly when the history is empty. */
  lemma RenderNoHistory(entries: seq<HistoryEntry>)
    ensures entries == [] ==> Render(entries) == ["", NoHistoryMessage]
    ensures NoHistoryMessage in Render(entries) <==> entries == []
  {
    if entries != [] {
      var header: seq<string> := ["", "--- History ---"];
      var body := EntryLines(entries);
      var summary := SummaryLines(CountAction(entries, Encrypt), CountAction(entries, Decrypt));
      EntryLinesNotMessage(entries);
      SummaryLinesNotMessage(CountAction(entries, Encrypt), CountAction(entries, Decrypt));
      assert NoHistoryMessage !in header by { assert |NoHistoryMessage| > 0; assert NoHistoryMessage[0] != '-'; }
      assert Render(entries) == header + body + summary;
    }
  }

  /** One successful encrypt and one failed decrypt are tallied as one of each. */
  lemma SummaryScenario(p: string, q: string)
    ensures var h := [HistoryEntry(p, Encrypt, true), HistoryEntry(q, Decrypt, false)];
            CountAction(h, Encrypt) == 1 && CountAction(h, Decrypt) == 1
            && Render(h)[6] == "Encrypted: 1 file(s)" && Render(h)[7] == "Decrypted: 1 file(s)"
  {
    var h := [HistoryEntry(p, Encrypt, true), HistoryEntry(q, Decrypt, false)];
    assert h[..1] == [h[0]];
    assert NatToString(1) == "1";
  }
}
