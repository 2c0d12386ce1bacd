/**
 * `rmDuplicateLine.py`: the positional arguments name an input and an
 * output file, and the input's lines are copied to the output without
 * repeats, first occurrence kept. File contents are given as a sequence
 * of lines.
 */
module RmDuplicateLine {
  import opened PyNum

  /** The two file names picked from the argument vector. */
  datatype FileNames = FileNames(input: Option<string>, output: Option<string>)

  /** Lines 17-24: the while loop over `argv[1:]` filling the first two empty names. */
  method ParseArgs(argv: seq<string>) returns (names: FileNames)
    ensures names.input == (if |argv| > 1 then Some(argv[1]) else None)
    ensures names.output == (if |argv| > 2 then Some(argv[2]) else None)
  {
    var infilename: Option<string> := None;
    var outfilename: Option<string> := None;
    var i := 1;
    while i < |argv|
      invariant 1 <= i <= |argv| || (|argv| <= 1 && i == 1)
      invariant infilename == (if i > 1 then Some(argv[1]) else None)
      invariant outfilename == (if i > 2 then Some(argv[2]) else None)
    {
      var arg := argv[i];
      if infilename.None? {
        infilename := Some(arg);
      } else if outfilename.None? {
        outfilename := Some(arg);
      }
      i := i + 1;
    }
    names := FileNames(infilename, outfilename);
  }

  /** The lines of s, as a set. */
  function Elements(s: seq<string>): (e: set<string>)
    ensures forall x :: x in e <==> x in s
  {
    set x | x in s
  }

  /** Lines 31-34: the lines of s with every repeat of an earlier line dropped. */
  function Dedup(s: seq<string>): (d: seq<string>)
    ensures |d| <= |s|
  {
    if s == [] then []
    else
      var prefix, line := s[..|s| - 1], s[|s| - 1];
      if line in Elements(prefix) then Dedup(prefix) else Dedup(prefix) + [line]
  }

  /** Lines 29-35: one pass over the lines with the `lines_seen` set. */
  method RemoveDuplicates(lines: seq<string>) returns (out: seq<string>, linesSeen: set<string>)
    ensures out == Dedup(lines)
    ensures linesSeen == Elements(lines)
  {
    linesSeen := {};
    out := [];
    for k := 0 to |lines|
      invariant out == Dedup(lines[..k])
      invariant linesSeen == Elements(lines[..k])
    {
      var line := lines[k];
      assert lines[..k + 1][..k] == lines[..k];
      if line !in linesSeen {
        out := out + [line];
        linesSeen := linesSeen + {line};
      }
      assert lines[..k + 1] == lines[..k] + [line];
    }
    assert lines[..|lines|] == lines;
  }

  predicate NoDuplicates(s: seq<string>)
  {
    forall i, j :: 0 <= i < j < |s| ==> s[i] != s[j]
  }

  /** The output holds exactly the lines of the input: none is lost, none is invented. */
  lemma {:induction false} DedupSameLines(s: seq<string>)
    ensures forall x :: x in Dedup(s) <==> x in s
  {
    if s != [] {
      var prefix := s[..|s| - 1];
      DedupSameLines(prefix);
      assert s == prefix + [s[|s| - 1]];
    }
  }

  /** No line appears twice in the output. */
  lemma {:induction false} DedupNoDuplicates(s: seq<string>)
    ensures NoDuplicates(Dedup(s))
  {
    if s != [] {
      var prefix := s[..|s| - 1];
      DedupNoDuplicates(prefix);
      DedupSameLines(prefix);
    }
  }

  /** The index of the first occurrence of x in s. */
  function IndexOf(s: seq<string>, x: string): (k: nat)
    requires x in s
    ensures k < |s| && s[k] == x && x !in s[..k]
  {
    if s[0] == x then 0 else 1 + IndexOf(s[1..], x)
  }

  lemma IndexOfExtended(s: seq<string>, x: string, y: string)
    requires x in s
    ensures IndexOf(s + [y], x) == IndexOf(s, x)
  {
    var k := IndexOf(s, x);
    var t := s + [y];
    assert t[..k] == s[..k];
    IndexOfUnique(t, x, k);
  }

  lemma IndexOfUnique(s: seq<string>, x: string, k: nat)
    requires k < |s| && s[k] == x && x !in s[..k]
    ensures IndexOf(s, x) == k
  {
  }

  /**
   * The output is the subsequence of the input taken at the first
   * occurrence of each line, in input order.
   */
  lemma {:induction false} DedupFirstOccurrenceOrder(s: seq<string>)
    ensures forall i :: 0 <= i < |Dedup(s)| ==> Dedup(s)[i] in s
    ensures forall i, j :: 0 <= i < j < |Dedup(s)| ==> IndexOf(s, Dedup(s)[i]) < IndexOf(s, Dedup(s)[j])
  {
    if s != [] {
      var prefix, line := s[..|s| - 1], s[|s| - 1];
      assert s == prefix + [line];
      DedupFirstOccurrenceOrder(prefix);
      var d := Dedup(prefix);
      forall i | 0 <= i < |d|
        ensures IndexOf(s, d[i]) == IndexOf(prefix, d[i]) < |prefix|
      {
        IndexOfExtended(prefix, d[i], line);
      }
      if line !in Elements(prefix) {
        IndexOfUnique(s, line, |prefix|);
      }
    }
  }

  /** A sequence without repeats passes through unchanged. */
  lemma {:induction false} DedupOfDistinct(s: seq<string>)
    requires NoDuplicates(s)
    ensures Dedup(s) == s
  {
    if s != [] {
      var prefix, line := s[..|s| - 1], s[|s| - 1];
      assert NoDuplicates(prefix);
      DedupOfDistinct(prefix);
      assert line !in prefix;
      assert s == prefix + [line];
    }
  }

  /** Filtering the output again changes nothing; and the output equals the input exactly when it has no repeats. */
  lemma DedupIdempotent(s: seq<string>)
    ensures Dedup(Dedup(s)) == Dedup(s)
    ensures Dedup(s) == s <==> NoDuplicates(s)
  {
    DedupNoDuplicates(s);
    DedupOfDistinct(Dedup(s));
    if NoDuplicates(s) {
      DedupOfDistinct(s);
    }
  }
}
