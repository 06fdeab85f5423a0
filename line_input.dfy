/** Reading a line that is not blank. The console is a given sequence of the lines the user types. */
module LineInput {

  datatype Option<T> = None | Some(value: T)

  /** What a read gives back: the first acceptable line and its position, or the input ran out. */
  datatype Read = Accepted(index: nat, line: string) | Exhausted

  /** A line is taken when it is not empty and some character in it is not the space ' '. */
  predicate IsAcceptable(s: string)
  {
    |s| != 0 && exists i :: 0 <= i < |s| && s[i] != ' '
  }

  /** n spaces. */
  function Spaces(n: nat): (s: string)
  {
    if n == 0 then [] else [' '] + Spaces(n - 1)
  }

  /** A line is rejected exactly when it is empty or made of spaces only. */
  lemma {:induction false} AcceptableIffNotAllSpaces(s: string)
    ensures IsAcceptable(s) <==> s != Spaces(|s|)
  {
    if s != [] {
      AcceptableIffNotAllSpaces(s[1..]);
      assert s == [s[0]] + s[1..];
      if IsAcceptable(s[1..]) {
        var i :| 0 <= i < |s[1..]| && s[1..][i] != ' ';
        assert s[i + 1] != ' ';
      }
      if s[0] != ' ' {
        assert Spaces(|s|)[0] == ' ';
      }
    }
  }

  /** Only the space counts as blank: a line of tabs or carriage returns is taken. */
  lemma OtherWhitespaceAccepted(s: string)
    requires |s| != 0
    requires forall i :: 0 <= i < |s| ==> s[i] in {'\t', '\r'}
    ensures IsAcceptable(s)
  {
    assert s[0] != ' ';
  }

  /**
   * The scan of one line: walks it from the left and stops at the first character that is not
   * a space. Stopping early does not change the answer: it is whether such a character exists.
   */
  method ScanForNonSpace(result: string) returns (isValid: bool)
    ensures isValid <==> exists i :: 0 <= i < |result| && result[i] != ' '
  {
    isValid := false;
    var i := 0;
    while i < |result|
      invariant 0 <= i <= |result|
      invariant !isValid
      invariant forall k :: 0 <= k < i ==> result[k] == ' '
    {
      if result[i] != ' ' {
        isValid := true;
        break;
      }
      i := i + 1;
    }
  }

  /** The position of the first acceptable line, if there is one. */
  function FirstAcceptable(lines: seq<string>): (r: Option<nat>)
    ensures r.Some? ==> r.value < |lines| && IsAcceptable(lines[r.value])
    ensures r.Some? ==> forall j :: 0 <= j < r.value ==> !IsAcceptable(lines[j])
    ensures r.None? <==> forall j :: 0 <= j < |lines| ==> !IsAcceptable(lines[j])
  {
    if lines == [] then None
    else if IsAcceptable(lines[0]) then Some(0)
    else match FirstAcceptable(lines[1..])
      case None => None
      case Some(k) => Some(k + 1)
  }

  /**
   * Prompts until a line is acceptable and returns it: empty lines and lines of spaces are
   * dropped and the next line is read. When the lines run out the C++ program keeps prompting;
   * that is Exhausted here.
   */
  method GetInput(lines: seq<string>) returns (outcome: Read)
    ensures outcome.Accepted? ==>
      outcome.index < |lines| && outcome.line == lines[outcome.index] && IsAcceptable(outcome.line)
    ensures outcome.Accepted? ==> forall j :: 0 <= j < outcome.index ==> !IsAcceptable(lines[j])
    ensures outcome.Exhausted? <==> forall j :: 0 <= j < |lines| ==> !IsAcceptable(lines[j])
    ensures FirstAcceptable(lines).None? ==> outcome == Exhausted
    ensures FirstAcceptable(lines).Some? ==>
      outcome == Accepted(FirstAcceptable(lines).value, lines[FirstAcceptable(lines).value])
  {
    var n := 0;
    while n < |lines|
      invariant 0 <= n <= |lines|
      invariant forall j :: 0 <= j < n ==> !IsAcceptable(lines[j])
    {
      var result := lines[n];
      n := n + 1;
      if |result| == 0 {
        continue;
      }
      var isValid := ScanForNonSpace(result);
      if isValid {
        return Accepted(n - 1, result);
      }
    }
    return Exhausted;
  }

  /** Reading stops at the first acceptable line: whatever follows it is never looked at. */
  lemma {:induction false} LaterLinesIgnored(lines: seq<string>, more: seq<string>)
    requires FirstAcceptable(lines).Some?
    ensures FirstAcceptable(lines + more) == FirstAcceptable(lines)
  {
    if !IsAcceptable(lines[0]) {
      assert (lines + more)[1..] == lines[1..] + more;
      LaterLinesIgnored(lines[1..], more);
    }
  }

  /** Lines that are all rejected are skipped: the search resumes in what follows them. */
  lemma {:induction false} RejectedLinesSkipped(blank: seq<string>, more: seq<string>)
    requires forall j :: 0 <= j < |blank| ==> !IsAcceptable(blank[j])
    ensures FirstAcceptable(blank + more) ==
      match FirstAcceptable(more)
      case None => None
      case Some(k) => Some(k + |blank|)
  {
    if blank != [] {
      assert (blank + more)[1..] == blank[1..] + more;
      RejectedLinesSkipped(blank[1..], more);
    } else {
      assert blank + more == more;
    }
  }
}
