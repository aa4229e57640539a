/**
 * Splitting the text read from a log file into lines, as a file object's
 * `readlines()` does: every line keeps its '\n' terminator, and only the
 * last line of the text may lack one.
 */
module LineSplit {

  /** A single line: a '\n' may occur only as its last character. */
  predicate IsLine(l: string) {
    forall k :: 0 <= k < |l| - 1 ==> l[k] != '\n'
  }

  /** What `readlines()` can return: non-empty lines, each terminated except possibly the last. */
  predicate WellSplit(lines: seq<string>) {
    forall i :: 0 <= i < |lines| ==>
      lines[i] != [] && IsLine(lines[i]) && (i < |lines| - 1 ==> lines[i][|lines[i]| - 1] == '\n')
  }

  /** The lines joined back together, without separators (the inverse of SplitLines). */
  function Concat(lines: seq<string>): string {
    if lines == [] then [] else lines[0] + Concat(lines[1..])
  }

  /** Length of the first line of `s`: up to and including the first '\n', or all of `s`. */
  function LineEnd(s: string): (n: nat)
    requires s != []
    ensures 0 < n <= |s|
    ensures forall k :: 0 <= k < n - 1 ==> s[k] != '\n'
    ensures s[n - 1] == '\n' || n == |s|
  {
    if s[0] == '\n' || |s| == 1 then 1 else 1 + LineEnd(s[1..])
  }

  /** The lines of `s`, in order, as `readlines()` returns them. */
  function SplitLines(s: string): seq<string>
    decreases |s|
  {
    if s == [] then [] else
      var n := LineEnd(s);
      [s[..n]] + SplitLines(s[n..])
  }

  /** Joining the lines gives back exactly the text that was read. */
  lemma {:induction false} SplitThenConcat(s: string)
    ensures Concat(SplitLines(s)) == s
    decreases |s|
  {
    if s != [] {
      var n := LineEnd(s);
      SplitThenConcat(s[n..]);
      assert s == s[..n] + s[n..];
    }
  }

  /** Every line is non-empty and keeps its terminator; only the last may lack one. */
  lemma {:induction false} SplitWellFormed(s: string)
    ensures WellSplit(SplitLines(s))
    decreases |s|
  {
    if s != [] {
      var n := LineEnd(s);
      SplitWellFormed(s[n..]);
      var rest := SplitLines(s[n..]);
      assert SplitLines(s) == [s[..n]] + rest;
      if rest != [] {
        // the text after the first line is non-empty, so the first line ended at a '\n'
        assert s[n..] != [];
      }
    }
  }

  /** LineEnd finds exactly the end of a well-formed first line. */
  lemma {:induction false} LineEndOfLine(l: string, rest: string)
    requires l != [] && IsLine(l)
    requires l[|l| - 1] == '\n' || rest == []
    ensures LineEnd(l + rest) == |l|
    decreases |l|
  {
    var s := l + rest;
    if |l| > 1 {
      assert s[0] == l[0] && l[0] != '\n';
      assert s[1..] == l[1..] + rest;
      LineEndOfLine(l[1..], rest);
    } else if s[0] != '\n' {
      assert rest == [];
    }
  }

  /** Splitting the concatenation of well-formed lines gives back those lines. */
  lemma {:induction false} ConcatThenSplit(lines: seq<string>)
    requires WellSplit(lines)
    ensures SplitLines(Concat(lines)) == lines
    decreases |lines|
  {
    if lines != [] {
      var rest := lines[1..];
      assert WellSplit(rest) by {
        forall i | 0 <= i < |rest|
          ensures rest[i] != [] && IsLine(rest[i]) && (i < |rest| - 1 ==> rest[i][|rest[i]| - 1] == '\n')
        {
          assert rest[i] == lines[i + 1];
        }
      }
      ConcatThenSplit(rest);
      var s := Concat(lines);
      assert s == lines[0] + Concat(rest);
      if rest != [] {
        assert lines[0][|lines[0]| - 1] == '\n';
      } else {
        assert Concat(rest) == [];
      }
      LineEndOfLine(lines[0], Concat(rest));
      assert s[..|lines[0]|] == lines[0];
      assert s[|lines[0]|..] == Concat(rest);
    }
  }

  /** Concatenation distributes over joining two runs of lines. */
  lemma {:induction false} ConcatAppend(a: seq<string>, b: seq<string>)
    ensures Concat(a + b) == Concat(a) + Concat(b)
    decreases |a|
  {
    if a != [] {
      assert (a + b)[1..] == a[1..] + b;
      ConcatAppend(a[1..], b);
    } else {
      assert a + b == b;
    }
  }
}
