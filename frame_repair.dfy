/** reading-frame-finder.py: rewrites column 8 (the frame) of every CDS row
    of a GFF file, row by row, from the row's own coordinates and the length
    of its sequence; everything else passes through unchanged. */
module FrameRepair {
  import opened Outcomes
  import opened Text

  // ---------------------------------------------------------------------
  // sequence lengths (get_contig_length) and the genome sanity check
  // ---------------------------------------------------------------------

  /** One entry of the dict SeqIO.to_dict builds from the genome FASTA. */
  datatype SequenceRecord = SequenceRecord(name: string, residues: string)

  /** get_contig_length: name -> len(sequence) for every record. The records
      come from a dict, so their names are distinct. */
  method ContigLengths(records: seq<SequenceRecord>) returns (lengths: map<string, nat>)
    requires forall i, j :: 0 <= i < j < |records| ==> records[i].name != records[j].name
    ensures lengths.Keys == set r | r in records :: r.name
    ensures forall r :: r in records ==> lengths[r.name] == |r.residues|
  {
    lengths := map[];
    for i := 0 to |records|
      invariant lengths.Keys == set r | r in records[..i] :: r.name
      invariant forall j :: 0 <= j < i ==> lengths[records[j].name] == |records[j].residues|
    {
      assert records[..i + 1] == records[..i] + [records[i]];
      lengths := lengths[records[i].name := |records[i].residues|];
    }
    assert records[..|records|] == records;
  }

  datatype GenomeError =
    | NotFasta       // "Your genome is not a fasta file"
    | NotNucleotide  // "Your genome is not nucleotide sequence"

  predicate IsNucleotide(ch: char)
  {
    ch in "acgtnACGTN"
  }

  predicate AllNucleotides(s: string)
  {
    forall i :: 0 <= i < |s| ==> IsNucleotide(s[i])
  }

  /** The nucleotide pattern (a, c, g, t or n in either case, anchored at
      both ends) matches s: without multi-line mode,
      '$' matches at the end of s or just before a final newline. */
  predicate MatchesDnaPattern(s: string)
  {
    AllNucleotides(s) || (|s| > 0 && s[|s| - 1] == '\n' && AllNucleotides(s[..|s| - 1]))
  }

  /** The check on the first two lines of the genome file (each as
      readline returns it). The exceptions it raises are not caught. */
  function CheckGenome(first: string, second: string): Option<GenomeError>
  {
    if '>' !in first then Some(NotFasta)
    else if !MatchesDnaPattern(second) then Some(NotNucleotide)
    else None
  }

  /** How a line of the genome file ends on disk. */
  datatype LineEnd = LF | CRLF | CR | NoEnd

  /** What readline returns for a line with the given content and ending
      on a file opened in text mode: universal newlines turn "\r\n" and a
      lone "\r" into "\n"; the last line of a file may have no ending. */
  function ReadLine(content: string, ending: LineEnd): (r: string)
    requires '\n' !in content && '\r' !in content
    ensures ending == NoEnd ==> r == content
    ensures ending != NoEnd ==> |r| == |content| + 1 && r[..|content|] == content && r[|content|] == '\n'
  {
    if ending == NoEnd then content else content + "\n"
  }

  /** Whatever the line ending on disk, the check passes exactly when the
      first line has '>' and the second line's content is all acgtn
      letters in either case; the header test is made first. */
  lemma {:induction false} GenomeCheckVerdicts(first: string, line: string, ending: LineEnd)
    requires '\n' !in line && '\r' !in line
    ensures CheckGenome(first, ReadLine(line, ending)) == CheckGenome(first, line)
    ensures CheckGenome(first, ReadLine(line, ending)) == None <==> '>' in first && AllNucleotides(line)
    ensures '>' !in first ==> CheckGenome(first, ReadLine(line, ending)) == Some(NotFasta)
    ensures '>' in first && !AllNucleotides(line) ==>
      CheckGenome(first, ReadLine(line, ending)) == Some(NotNucleotide)
  {
    var s := ReadLine(line, ending);
    if ending != NoEnd {
      assert s[..|s| - 1] == line;
      assert !IsNucleotide(s[|s| - 1]);
    }
    if |line| > 0 {
      assert !(line[|line| - 1] == '\n');
    }
  }

  /** A Windows-style FASTA passes: ">chr1" then "ACGTn" ending in "\r\n". */
  lemma {:induction false} CrlfGenomeAccepted()
    ensures CheckGenome(ReadLine(">chr1", CRLF), ReadLine("ACGTn", CRLF)) == None
  {
    GenomeCheckVerdicts(ReadLine(">chr1", CRLF), "ACGTn", CRLF);
    assert ReadLine(">chr1", CRLF)[0] == '>';
    assert AllNucleotides("ACGTn") by {
      forall i | 0 <= i < 5 ensures IsNucleotide("ACGTn"[i]) { }
    }
  }

  // ---------------------------------------------------------------------
  // the row transform (check_features_simple)
  // ---------------------------------------------------------------------

  /** A row as csv.reader splits a line on tabs. */
  type Row = seq<string>

  // 0-based positions of the GFF3 columns the transform reads or writes
  const SeqnameCol := 0
  const FeatureCol := 2
  const StartCol := 3
  const EndCol := 4
  const StrandCol := 6
  const FrameCol := 7

  datatype FrameError =
    | WrongFieldCount(count: nat)       // unpacking a row that has not nine fields
    | UnknownSequence(seqname: string)  // lengths[seqname] on a missing name
    | NotAnInteger(text: string)        // start or end is not a decimal integer

  /** Some field of the row holds the comment marker '#'. */
  predicate HasCommentMarker(row: Row)
  {
    exists i :: 0 <= i < |row| && '#' in row[i]
  }

  /** What one iteration of the loop writes for one input row. */
  function RepairRow(row: Row, lengths: map<string, nat>): Result<Row, FrameError>
  {
    if HasCommentMarker(row) then Ok(row)
    else if |row| != 9 then Err(WrongFieldCount(|row|))
    else if row[StrandCol] == "+" && row[FeatureCol] == "CDS" then
      match ParseInt(row[StartCol])
      case None => Err(NotAnInteger(row[StartCol]))
      case Some(start) => Ok(row[FrameCol := NatText(start % 3)])
    else if row[StrandCol] == "-" && row[FeatureCol] == "CDS" then
      if row[SeqnameCol] !in lengths then Err(UnknownSequence(row[SeqnameCol]))
      else
        match ParseInt(row[EndCol])
        case None => Err(NotAnInteger(row[EndCol]))
        case Some(end) => Ok(row[FrameCol := NatText((lengths[row[SeqnameCol]] - end) % 3)])
    else Ok(row)
  }

  /** Plus-strand CDS: the written frame reads back as start mod 3, a value
      in 0..2 also for a negative start. */
  lemma {:induction false} PlusStrandFrame(row: Row, lengths: map<string, nat>)
    requires !HasCommentMarker(row) && |row| == 9
    requires row[FeatureCol] == "CDS" && row[StrandCol] == "+"
    requires ParseInt(row[StartCol]).Some?
    ensures RepairRow(row, lengths).Ok?
    ensures var start := ParseInt(row[StartCol]).value;
      ParseInt(RepairRow(row, lengths).value[FrameCol]) == Some(start % 3) &&
      0 <= start % 3 <= 2
  {
    NatTextRoundTrip(ParseInt(row[StartCol]).value % 3);
  }

  /** Minus-strand CDS on a known sequence of length L: the written frame
      reads back as (L - end) mod 3, in 0..2 even when end > L (Python's %
      floors, so the remainder is never negative). */
  lemma {:induction false} MinusStrandFrame(row: Row, lengths: map<string, nat>)
    requires !HasCommentMarker(row) && |row| == 9
    requires row[FeatureCol] == "CDS" && row[StrandCol] == "-"
    requires row[SeqnameCol] in lengths && ParseInt(row[EndCol]).Some?
    ensures RepairRow(row, lengths).Ok?
    ensures var frame := (lengths[row[SeqnameCol]] - ParseInt(row[EndCol]).value) % 3;
      ParseInt(RepairRow(row, lengths).value[FrameCol]) == Some(frame) &&
      0 <= frame <= 2
  {
    NatTextRoundTrip((lengths[row[SeqnameCol]] - ParseInt(row[EndCol]).value) % 3);
  }

  /** A written row has the input's length and differs from it in the frame
      column only; only an unmarked CDS row on strand + or - changes at all. */
  lemma {:induction false} RepairTouchesOnlyFrame(row: Row, lengths: map<string, nat>)
    requires RepairRow(row, lengths).Ok?
    ensures var out := RepairRow(row, lengths).value;
      |out| == |row| &&
      (forall i :: 0 <= i < |row| && i != FrameCol ==> out[i] == row[i]) &&
      (out != row ==>
        !HasCommentMarker(row) && row[FeatureCol] == "CDS" &&
        (row[StrandCol] == "+" || row[StrandCol] == "-"))
  {
  }

  /** Rows copied unchanged: any row with '#' in some field (even a CDS
      row), and every nine-field row that is not a CDS on strand + or -. */
  lemma {:induction false} PassThroughRows(row: Row, lengths: map<string, nat>)
    requires HasCommentMarker(row) ||
      (|row| == 9 && (row[FeatureCol] != "CDS" || (row[StrandCol] != "+" && row[StrandCol] != "-")))
    ensures RepairRow(row, lengths) == Ok(row)
  {
  }

  /** The failures: an unmarked row without nine fields (an empty row
      included), and a minus-strand CDS row on a sequence with no length. */
  lemma {:induction false} RowFailures(row: Row, lengths: map<string, nat>)
    requires !HasCommentMarker(row)
    ensures |row| != 9 ==> RepairRow(row, lengths) == Err(WrongFieldCount(|row|))
    ensures (|row| == 9 && row[FeatureCol] == "CDS" && row[StrandCol] == "-" &&
             row[SeqnameCol] !in lengths) ==>
      RepairRow(row, lengths) == Err(UnknownSequence(row[SeqnameCol]))
  {
  }

  /** Repairing a repaired row changes nothing: the new frame depends only
      on columns the repair leaves alone, and a digit adds no '#'. */
  lemma {:induction false} RepairRowIdempotent(row: Row, lengths: map<string, nat>)
    requires RepairRow(row, lengths).Ok?
    ensures RepairRow(RepairRow(row, lengths).value, lengths) == RepairRow(row, lengths)
  {
    var out := RepairRow(row, lengths).value;
    if out != row {
      DigitsExclude(out[FrameCol], '#');
      forall i | 0 <= i < |out|
        ensures '#' !in out[i]
      {
        if i != FrameCol {
          assert out[i] == row[i];
        }
      }
      assert out[FrameCol := out[FrameCol]] == out;
    }
  }

  /** The whole output stream: one written row per input row, in order,
      or the error of the first row that fails. */
  function RepairAll(rows: seq<Row>, lengths: map<string, nat>): Result<seq<Row>, FrameError>
  {
    if |rows| == 0 then Ok([])
    else
      match RepairRow(rows[0], lengths)
      case Err(e) => Err(e)
      case Ok(out) =>
        match RepairAll(rows[1..], lengths)
        case Err(e) => Err(e)
        case Ok(rest) => Ok([out] + rest)
  }

  /** The stream succeeds exactly when every row does, and then row i of the
      output is what row i of the input repairs to. */
  lemma {:induction false} RepairAllRowwise(rows: seq<Row>, lengths: map<string, nat>, out: seq<Row>)
    ensures RepairAll(rows, lengths) == Ok(out) <==>
      |out| == |rows| && forall i :: 0 <= i < |rows| ==> RepairRow(rows[i], lengths) == Ok(out[i])
  {
    if |rows| > 0 && |out| > 0 {
      RepairAllRowwise(rows[1..], lengths, out[1..]);
      assert out == [out[0]] + out[1..];
      if |out| == |rows| && forall i :: 0 <= i < |rows| ==> RepairRow(rows[i], lengths) == Ok(out[i]) {
        forall i | 0 <= i < |rows| - 1
          ensures RepairRow(rows[1..][i], lengths) == Ok(out[1..][i])
        {
          assert rows[1..][i] == rows[i + 1];
        }
      }
    }
  }

  /** The first failing row decides the stream's error. */
  lemma {:induction false} RepairAllFirstError(rows: seq<Row>, lengths: map<string, nat>, k: nat)
    requires k < |rows|
    requires forall j :: 0 <= j < k ==> RepairRow(rows[j], lengths).Ok?
    requires RepairRow(rows[k], lengths).Err?
    ensures RepairAll(rows, lengths) == Err(RepairRow(rows[k], lengths).error)
  {
    if k > 0 {
      RepairAllFirstError(rows[1..], lengths, k - 1);
    }
  }

  /** Running the tool on its own output gives the same file. */
  lemma {:induction false} RepairAllIdempotent(rows: seq<Row>, lengths: map<string, nat>)
    requires RepairAll(rows, lengths).Ok?
    ensures RepairAll(RepairAll(rows, lengths).value, lengths) == RepairAll(rows, lengths)
  {
    var out := RepairAll(rows, lengths).value;
    RepairAllRowwise(rows, lengths, out);
    forall i | 0 <= i < |out|
      ensures RepairRow(out[i], lengths) == Ok(out[i])
    {
      RepairRowIdempotent(rows[i], lengths);
    }
    RepairAllRowwise(out, lengths, out);
  }

  /** The decimal texts the two examples read and write. */
  lemma {:induction false} HundredText()
    ensures ParseInt("100") == Some(100) && NatText(1) == "1" && NatText(0) == "0"
  {
    NatTextRoundTrip(100);
    assert NatText(10) == "10";
    assert NatText(100) == "100";
  }

  /** A CDS row on strand + starting at 100 gets frame 100 mod 3 = 1. */
  lemma {:induction false} PlusFrameExample()
    ensures var row := ["chr1", "liftoff", "CDS", "100", "400", ".", "+", ".", "ID=cds1"];
      RepairRow(row, map["chr1" := 1000]) == Ok(row[FrameCol := "1"])
  {
    var row := ["chr1", "liftoff", "CDS", "100", "400", ".", "+", ".", "ID=cds1"];
    HundredText();
    assert !HasCommentMarker(row);
  }

  /** A CDS row on strand - ending at 100 on a sequence of length 1000 gets
      frame (1000 - 100) mod 3 = 0. */
  lemma {:induction false} MinusFrameExample()
    ensures var row := ["chr1", "liftoff", "CDS", "40", "100", ".", "-", ".", "ID=cds2"];
      RepairRow(row, map["chr1" := 1000]) == Ok(row[FrameCol := "0"])
  {
    var row := ["chr1", "liftoff", "CDS", "40", "100", ".", "-", ".", "ID=cds2"];
    HundredText();
    assert !HasCommentMarker(row);
  }

  /** check_features_simple: the loop that writes one row per input row.
      The rows written before a failing row stay in the output file. */
  method RepairFrames(rows: seq<Row>, lengths: map<string, nat>)
    returns (written: seq<Row>, failure: Option<FrameError>)
    ensures |written| <= |rows|
    ensures forall i :: 0 <= i < |written| ==> RepairRow(rows[i], lengths) == Ok(written[i])
    ensures failure.None? ==> |written| == |rows| && RepairAll(rows, lengths) == Ok(written)
    ensures failure.Some? ==>
      |written| < |rows| && RepairRow(rows[|written|], lengths) == Err(failure.value) &&
      RepairAll(rows, lengths) == Err(failure.value)
  {
    written := [];
    var i := 0;
    while i < |rows|
      invariant 0 <= i <= |rows| && |written| == i
      invariant forall j :: 0 <= j < i ==> RepairRow(rows[j], lengths) == Ok(written[j])
    {
      var row := rows[i];
      var out: Row;
      if exists k :: 0 <= k < |row| && '#' in row[k] {
        out := row;
      } else if |row| != 9 {
        failure := Some(WrongFieldCount(|row|));
        RepairAllFirstError(rows, lengths, i);
        return;
      } else {
        var seqname, feature, start, end, strand := row[0], row[2], row[3], row[4], row[6];
        if strand == "+" && feature == "CDS" {
          match ParseInt(start)
          case None =>
            failure := Some(NotAnInteger(start));
            RepairAllFirstError(rows, lengths, i);
            return;
          case Some(s) =>
            out := row[FrameCol := NatText(s % 3)];
        } else if strand == "-" && feature == "CDS" {
          if seqname !in lengths {
            failure := Some(UnknownSequence(seqname));
            RepairAllFirstError(rows, lengths, i);
            return;
          }
          match ParseInt(end)
          case None =>
            failure := Some(NotAnInteger(end));
            RepairAllFirstError(rows, lengths, i);
            return;
          case Some(e) =>
            out := row[FrameCol := NatText((lengths[seqname] - e) % 3)];
        } else {
          out := row;
        }
      }
      written := written + [out];
      i := i + 1;
    }
    failure := None;
    RepairAllRowwise(rows, lengths, written);
  }
}
