/**
 * The sort key of a log line: the text that the pattern `<(.*)?>` captures
 * in its first match, handed to a numeric parser. The pattern is greedy and
 * `.` does not cross a '\n', so on a line the captured text runs from the
 * first '<' to the last '>' after it. The numeric parser (Python's `float`)
 * is not modelled; it is a parameter.
 */
module KeyExtraction {
  import opened Wrappers
  import opened LineSplit

  /**
   * Index in `s` of the last '>' that comes before the first '\n', if any:
   * how far the greedy `(.*)` followed by `>` reaches from a match start.
   */
  function LastClose(s: string): (r: Option<nat>)
    ensures r.Some? ==> r.value < |s| && s[r.value] == '>'
  {
    if s == [] || s[0] == '\n' then None
    else match LastClose(s[1..])
      case Some(j) => Some(j + 1)
      case None => if s[0] == '>' then Some(0) else None
  }

  /**
   * The text captured by the first match of `<(.*)?>` in `s`, or None when
   * the pattern does not match (then `re.findall(...)[0]` raises).
   * A match starts at a '<' from which a '>' can be reached on the same line.
   */
  function KeyText(s: string): Option<string>
  {
    if s == [] then None
    else if s[0] == '<' then
      match LastClose(s[1..])
      case Some(j) => Some(s[1..][..j])
      case None => KeyText(s[1..])
    else KeyText(s[1..])
  }

  /** The numeric key of a line, or None when extraction or parsing fails. */
  function LineKey(parse: string -> Option<real>, line: string): Option<real> {
    match KeyText(line)
    case None => None
    case Some(t) => parse(t)
  }

  /** The key used for ordering once every line of a batch is known to have one. */
  function SortKey(parse: string -> Option<real>, line: string): real {
    match LineKey(parse, line)
    case Some(v) => v
    case None => 0.0
  }

  /** A line carries a '<' that some later '>' closes. */
  predicate HasBracketPair(s: string) {
    exists i, j :: 0 <= i < j < |s| && s[i] == '<' && s[j] == '>'
  }

  lemma {:induction false} LastCloseNone(s: string)
    requires forall k :: 0 <= k < |s| ==> s[k] != '>'
    ensures LastClose(s) == None
  {
    if s != [] && s[0] != '\n' {
      LastCloseNone(s[1..]);
    }
  }

  lemma {:induction false} LastCloseIs(s: string, j: nat)
    requires j < |s| && s[j] == '>'
    requires forall k :: 0 <= k < j ==> s[k] != '\n'
    requires forall k :: j < k < |s| ==> s[k] != '>'
    ensures LastClose(s) == Some(j)
  {
    if j == 0 {
      LastCloseNone(s[1..]);
    } else {
      LastCloseIs(s[1..], j - 1);
    }
  }

  lemma {:induction false} LastCloseFound(s: string, j: nat)
    requires j < |s| && s[j] == '>'
    requires forall k :: 0 <= k < j ==> s[k] != '\n'
    ensures LastClose(s).Some?
  {
    if j > 0 {
      LastCloseFound(s[1..], j - 1);
    }
  }

  /**
   * On a line, the key text is everything strictly between the first '<'
   * and the last '>', provided that '>' comes after that '<'.
   */
  lemma {:induction false} KeyTextGreedy(s: string, i: nat, j: nat)
    requires IsLine(s)
    requires i < j < |s| && s[i] == '<' && s[j] == '>'
    requires forall k :: 0 <= k < i ==> s[k] != '<'
    requires forall k :: j < k < |s| ==> s[k] != '>'
    ensures KeyText(s) == Some(s[i + 1..j])
  {
    if i == 0 {
      LastCloseIs(s[1..], j - 1);
      assert s[1..][..j - 1] == s[1..j];
    } else {
      KeyTextGreedy(s[1..], i - 1, j - 1);
      assert s[1..][i..j - 1] == s[i + 1..j];
    }
  }

  /** On a line, the pattern matches exactly when some '<' is followed by a '>'. */
  lemma {:induction false} KeyTextExists(s: string)
    requires IsLine(s)
    ensures KeyText(s).Some? <==> HasBracketPair(s)
  {
    if s == [] {
    } else {
      var t := s[1..];
      assert IsLine(t);
      KeyTextExists(t);
      if s[0] == '<' {
        if HasBracketPair(s) {
          var i, j :| 0 <= i < j < |s| && s[i] == '<' && s[j] == '>';
          LastCloseFound(t, j - 1);
        } else {
          forall k | 0 <= k < |t| ensures t[k] != '>' {
            assert s[k + 1] == t[k];
          }
          LastCloseNone(t);
          PairInTail(s);
        }
      } else {
        PairInTail(s);
      }
    }
  }

  /** A bracket pair of a string not starting with a closable '<' lies in its tail. */
  lemma PairInTail(s: string)
    requires s != []
    requires s[0] != '<' || !HasBracketPair(s)
    ensures HasBracketPair(s) <==> HasBracketPair(s[1..])
  {
    if HasBracketPair(s) {
      var i, j :| 0 <= i < j < |s| && s[i] == '<' && s[j] == '>';
      assert s[1..][i - 1] == '<' && s[1..][j - 1] == '>';
    }
    if HasBracketPair(s[1..]) {
      var i, j :| 0 <= i < j < |s[1..]| && s[1..][i] == '<' && s[1..][j] == '>';
      assert s[i + 1] == '<' && s[j + 1] == '>';
    }
  }
}
