/**
 * The roster and its intake. Names and grade lists are two parallel
 * sequences kept in lockstep by index; names are read one line at a time
 * until the sentinel line "done", and grades one token at a time, per
 * student, until the sentinel -1.
 */
module Roster {
  import opened Wrappers

  /** The line that ends name entry. */
  const Done: string := "done"

  /** The grade that ends one student's grade entry. */
  const EndOfGrades: int := -1

  predicate IsGrade(v: int)
  {
    0 <= v <= 100
  }

  /** Every grade in every list is in [0,100]. */
  predicate AllGrades(lists: seq<seq<int>>)
  {
    forall i, j :: 0 <= i < |lists| && 0 <= j < |lists[i]| ==> IsGrade(lists[i][j])
  }

  // ---------------------------------------------------------------- names

  /** Index of the first "done" line, or the number of lines when there is none. */
  function DoneIndex(lines: seq<string>): (k: nat)
    ensures k <= |lines|
    ensures k < |lines| ==> lines[k] == Done
    ensures forall j :: 0 <= j < k ==> lines[j] != Done
  {
    if |lines| == 0 || lines[0] == Done then 0 else 1 + DoneIndex(lines[1..])
  }

  /** The non-blank lines, in order. */
  function NonBlank(lines: seq<string>): (r: seq<string>)
    ensures |r| <= |lines|
    ensures forall i :: 0 <= i < |r| ==> r[i] != ""
  {
    if |lines| == 0 then []
    else
      var last := lines[|lines| - 1];
      NonBlank(lines[..|lines| - 1]) + (if last == "" then [] else [last])
  }

  /** The names name entry accepts: the non-blank lines before the first "done". */
  function AcceptedNames(lines: seq<string>): seq<string>
  {
    NonBlank(lines[..DoneIndex(lines)])
  }

  /** The lines name entry leaves unread: those after the first "done". */
  function AfterNames(lines: seq<string>): seq<string>
  {
    var k := DoneIndex(lines);
    if k < |lines| then lines[k + 1..] else []
  }

  /** k empty grade lists. */
  function EmptyLists(k: nat): (r: seq<seq<int>>)
    ensures |r| == k
    ensures forall i :: 0 <= i < k ==> r[i] == []
  {
    if k == 0 then [] else EmptyLists(k - 1) + [[]]
  }

  lemma {:induction false} NonBlankMembers(lines: seq<string>, x: string)
    ensures x in NonBlank(lines) <==> x != "" && x in lines
  {
    if |lines| > 0 {
      var init := lines[..|lines| - 1];
      assert lines == init + [lines[|lines| - 1]];
      NonBlankMembers(init, x);
    }
  }

  /** Name entry stops at the FIRST "done": nothing typed after it is taken as a name. */
  lemma AcceptedNamesStopAtDone(pre: seq<string>, post: seq<string>)
    requires Done !in pre
    ensures AcceptedNames(pre + [Done] + post) == NonBlank(pre)
    ensures AfterNames(pre + [Done] + post) == post
  {
    var lines := pre + [Done] + post;
    assert forall j :: 0 <= j < |pre| ==> lines[j] == pre[j];
    assert lines[|pre|] == Done;
    assert DoneIndex(lines) == |pre|;
    assert lines[..|pre|] == pre;
    assert lines[|pre| + 1..] == post;
  }

  /** A name is accepted exactly when it is non-blank, is not "done" and was typed before the first "done". */
  lemma AcceptedNamesMembers(lines: seq<string>, x: string)
    ensures x in AcceptedNames(lines) <==> x != "" && x in lines[..DoneIndex(lines)]
    ensures x in AcceptedNames(lines) ==> x != Done
  {
    NonBlankMembers(lines[..DoneIndex(lines)], x);
  }

  // --------------------------------------------------------------- grades

  /** Index of the first -1 token, or the number of tokens when there is none. */
  function SentinelIndex(tokens: seq<Option<int>>): (k: nat)
    ensures k <= |tokens|
    ensures k < |tokens| ==> tokens[k] == Some(EndOfGrades)
    ensures forall j :: 0 <= j < k ==> tokens[j] != Some(EndOfGrades)
  {
    if |tokens| == 0 || tokens[0] == Some(EndOfGrades) then 0 else 1 + SentinelIndex(tokens[1..])
  }

  /** The tokens that are grades in [0,100], in order; non-numeric and out-of-range tokens are dropped. */
  function ValidGrades(tokens: seq<Option<int>>): (r: seq<int>)
    ensures |r| <= |tokens|
    ensures forall i :: 0 <= i < |r| ==> IsGrade(r[i])
  {
    if |tokens| == 0 then []
    else
      var last := tokens[|tokens| - 1];
      ValidGrades(tokens[..|tokens| - 1]) + (if last.Some? && IsGrade(last.value) then [last.value] else [])
  }

  /** Grades one student receives from the tokens: the valid ones before the first -1. */
  function StudentGrades(tokens: seq<Option<int>>): seq<int>
  {
    ValidGrades(tokens[..SentinelIndex(tokens)])
  }

  /** Tokens left for the next student: those after the first -1. */
  function AfterStudent(tokens: seq<Option<int>>): seq<Option<int>>
  {
    var k := SentinelIndex(tokens);
    if k < |tokens| then tokens[k + 1..] else []
  }

  /** Tokens left once grade entry has been done for the first n students of the roster. */
  function Remaining(n: nat, tokens: seq<Option<int>>): (r: seq<Option<int>>)
    ensures |r| <= |tokens|
  {
    if n == 0 then tokens else AfterStudent(Remaining(n - 1, tokens))
  }

  /** Grades the first n students of the roster receive, in roster order. */
  function Received(n: nat, tokens: seq<Option<int>>): (r: seq<seq<int>>)
    ensures |r| == n
  {
    if n == 0 then [] else Received(n - 1, tokens) + [StudentGrades(Remaining(n - 1, tokens))]
  }

  /** Student i's share of grade entry is read from where the first i students' entry stopped. */
  lemma {:induction false} ReceivedAt(n: nat, i: nat, tokens: seq<Option<int>>)
    requires i < n
    ensures Received(n, tokens)[i] == StudentGrades(Remaining(i, tokens))
    decreases n
  {
    if n > i + 1 {
      ReceivedAt(n - 1, i, tokens);
    }
  }

  /** Every grade grade entry stores is in [0,100]; in particular the sentinel -1 is never stored. */
  lemma {:induction false} ReceivedAreGrades(n: nat, tokens: seq<Option<int>>)
    ensures AllGrades(Received(n, tokens))
  {
    if n > 0 {
      ReceivedAreGrades(n - 1, tokens);
      var r := Received(n, tokens);
      assert forall i :: 0 <= i < n - 1 ==> r[i] == Received(n - 1, tokens)[i];
    }
  }

  /** A student's entry read up to index k, where the first -1 (or the end of input) stands. */
  lemma StudentSpan(left: seq<Option<int>>, k: nat)
    requires k <= |left|
    requires forall j :: 0 <= j < k ==> left[j] != Some(EndOfGrades)
    requires k == |left| || left[k] == Some(EndOfGrades)
    ensures StudentGrades(left) == ValidGrades(left[..k])
    ensures AfterStudent(left) == if k < |left| then left[k + 1..] else []
  {
  }

  /** A student's entry that starts at index start of the input and stops at index pos. */
  lemma StudentSpanAt(tokens: seq<Option<int>>, start: nat, pos: nat)
    requires start <= pos <= |tokens|
    requires forall j :: start <= j < pos ==> tokens[j] != Some(EndOfGrades)
    requires pos == |tokens| || tokens[pos] == Some(EndOfGrades)
    ensures StudentGrades(tokens[start..]) == ValidGrades(tokens[start..pos])
    ensures AfterStudent(tokens[start..]) == if pos < |tokens| then tokens[pos + 1..] else []
  {
    var left := tokens[start..];
    var k := pos - start;
    assert forall j :: 0 <= j < k ==> left[j] != Some(EndOfGrades) by {
      forall j | 0 <= j < k ensures left[j] != Some(EndOfGrades) {
        assert left[j] == tokens[start + j];
      }
    }
    StudentSpan(left, k);
    assert left[..k] == tokens[start..pos];
    assert pos < |tokens| ==> left[k + 1..] == tokens[pos + 1..];
  }

  /** One more student's grade entry, read from where the previous students' entry stopped. */
  lemma IntakeStep(i: nat, tokens: seq<Option<int>>, start: nat, pos: nat)
    requires start <= pos <= |tokens| && tokens[start..] == Remaining(i, tokens)
    requires forall j :: start <= j < pos ==> tokens[j] != Some(EndOfGrades)
    requires pos == |tokens| || tokens[pos] == Some(EndOfGrades)
    ensures Received(i + 1, tokens) == Received(i, tokens) + [ValidGrades(tokens[start..pos])]
    ensures Remaining(i + 1, tokens) == if pos < |tokens| then tokens[pos + 1..] else []
  {
    StudentSpanAt(tokens, start, pos);
  }

  /** Extending list i of a roster whose first i lists are already extended keeps the first i + 1 extended. */
  lemma ExtendNext(base: seq<seq<int>>, prev: seq<seq<int>>, now: seq<seq<int>>, added: seq<seq<int>>, i: nat, x: seq<int>)
    requires i < |base| == |prev| && |added| == i
    requires forall j :: 0 <= j < i ==> prev[j] == base[j] + added[j]
    requires forall j :: i <= j < |prev| ==> prev[j] == base[j]
    requires now == prev[i := prev[i] + x]
    ensures |now| == |base|
    ensures forall j :: 0 <= j < i + 1 ==> now[j] == base[j] + (added + [x])[j]
    ensures forall j :: i + 1 <= j < |now| ==> now[j] == base[j]
  {
  }

  /** Extending lists of grades in [0,100] by lists of grades in [0,100] keeps every grade in [0,100]. */
  lemma ExtendKeepsGrades(base: seq<seq<int>>, added: seq<seq<int>>, now: seq<seq<int>>)
    requires |now| == |base| == |added|
    requires forall j :: 0 <= j < |now| ==> now[j] == base[j] + added[j]
    requires AllGrades(base) && AllGrades(added)
    ensures AllGrades(now)
  {
  }

  lemma {:induction false} ValidGradesMembers(tokens: seq<Option<int>>, v: int)
    ensures v in ValidGrades(tokens) <==> IsGrade(v) && Some(v) in tokens
  {
    if |tokens| > 0 {
      var init := tokens[..|tokens| - 1];
      assert tokens == init + [tokens[|tokens| - 1]];
      ValidGradesMembers(init, v);
    }
  }

  /** A student receives grade v exactly when v is in [0,100] and was entered before that student's -1. */
  lemma StudentGradesMembers(tokens: seq<Option<int>>, v: int)
    ensures v in StudentGrades(tokens) <==> IsGrade(v) && Some(v) in tokens[..SentinelIndex(tokens)]
    ensures v in StudentGrades(tokens) ==> v != EndOfGrades
  {
    ValidGradesMembers(tokens[..SentinelIndex(tokens)], v);
  }

  /** A student's entry stops at the FIRST -1; what follows is left for the next student. */
  lemma StudentStopsAtSentinel(pre: seq<Option<int>>, post: seq<Option<int>>)
    requires Some(EndOfGrades) !in pre
    ensures StudentGrades(pre + [Some(EndOfGrades)] + post) == ValidGrades(pre)
    ensures AfterStudent(pre + [Some(EndOfGrades)] + post) == post
  {
    var t := pre + [Some(EndOfGrades)] + post;
    assert forall j :: 0 <= j < |pre| ==> t[j] == pre[j];
    assert t[|pre|] == Some(EndOfGrades);
    assert SentinelIndex(t) == |pre|;
    assert t[..|pre|] == pre;
    assert t[|pre| + 1..] == post;
  }

  /** Worked case: 85, a non-number, 101 and 90, then -1: the student gets 85 and 90, and 70 is left over. */
  lemma StudentWorkedCase()
    ensures StudentGrades([Some(85), None, Some(101), Some(90), Some(-1), Some(70)]) == [85, 90]
    ensures AfterStudent([Some(85), None, Some(101), Some(90), Some(-1), Some(70)]) == [Some(70)]
  {
    var pre := [Some(85), None, Some(101), Some(90)];
    StudentStopsAtSentinel(pre, [Some(70)]);
    assert pre + [Some(-1)] + [Some(70)] == [Some(85), None, Some(101), Some(90), Some(-1), Some(70)];
    assert pre[..3][..2][..1] == [Some(85)];
    assert pre[..3][..2] == [Some(85), None];
    assert pre[..3] == [Some(85), None, Some(101)];
    assert ValidGrades([Some(85)]) == [85];
    assert ValidGrades([Some(85), None]) == [85];
    assert ValidGrades([Some(85), None, Some(101)]) == [85];
    assert ValidGrades(pre) == [85, 90];
  }

  // --------------------------------------------------------------- roster

  /** The grade book: names and grade lists side by side, one list per name. */
  class GradeBook {
    var names: seq<string>
    var grades: seq<seq<int>>

    /** The two sequences describe the same students. */
    predicate Lockstep()
      reads this
    {
      |names| == |grades|
    }

    /** What intake guarantees of a roster built from scratch: lockstep, no blank name, every grade in [0,100]. */
    predicate Valid()
      reads this
    {
      Lockstep() &&
      (forall i :: 0 <= i < |names| ==> names[i] != "") &&
      AllGrades(grades)
    }

    constructor ()
      ensures Valid() && names == [] && grades == []
    {
      names := [];
      grades := [];
    }

    /**
     * Name entry. Reads lines up to the first "done" (or the end of input),
     * skips blank ones and appends every other one with an empty grade list.
     * Returns the lines after the "done".
     */
    method AddStudents(lines: seq<string>) returns (rest: seq<string>)
      modifies this
      ensures names == old(names) + AcceptedNames(lines)
      ensures grades == old(grades) + EmptyLists(|AcceptedNames(lines)|)
      ensures rest == AfterNames(lines)
      ensures old(Lockstep()) ==> Lockstep()
      ensures old(Valid()) ==> Valid()
    {
      ghost var names0, grades0 := names, grades;
      var i := 0;
      while i < |lines| && lines[i] != Done
        invariant 0 <= i <= |lines|
        invariant forall j :: 0 <= j < i ==> lines[j] != Done
        invariant names == names0 + NonBlank(lines[..i])
        invariant grades == grades0 + EmptyLists(|NonBlank(lines[..i])|)
      {
        assert lines[..i + 1][..i] == lines[..i];
        if lines[i] != "" {
          names := names + [lines[i]];
          grades := grades + [[]];
        }
        i := i + 1;
      }
      assert DoneIndex(lines) == i;
      rest := if i < |lines| then lines[i + 1..] else [];
    }

    /**
     * One student's grade entry: reads tokens from index start up to the
     * first -1 (or the end of input) and appends to student i's list each
     * grade in [0,100]. Returns the index where it stopped.
     */
    method EnterGradesFor(i: nat, tokens: seq<Option<int>>, start: nat) returns (pos: nat)
      requires i < |grades| && start <= |tokens|
      modifies this
      ensures start <= pos <= |tokens|
      ensures forall j :: start <= j < pos ==> tokens[j] != Some(EndOfGrades)
      ensures pos == |tokens| || tokens[pos] == Some(EndOfGrades)
      ensures names == old(names)
      ensures grades == old(grades)[i := old(grades)[i] + ValidGrades(tokens[start..pos])]
    {
      pos := start;
      assert ValidGrades(tokens[start..pos]) == [];
      while pos < |tokens| && tokens[pos] != Some(EndOfGrades)
        invariant start <= pos <= |tokens|
        invariant forall j :: start <= j < pos ==> tokens[j] != Some(EndOfGrades)
        invariant names == old(names) && |grades| == |old(grades)|
        invariant grades[i] == old(grades)[i] + ValidGrades(tokens[start..pos])
        invariant forall j :: 0 <= j < |grades| && j != i ==> grades[j] == old(grades)[j]
      {
        assert tokens[start..pos + 1][..pos - start] == tokens[start..pos];
        match tokens[pos] {
          case Some(v) =>
            if IsGrade(v) {
              grades := grades[i := grades[i] + [v]];
            }
          case None =>
        }
        pos := pos + 1;
      }
    }

    /**
     * Grade entry. For each student in roster order, reads tokens up to the
     * first -1 (or the end of input) and appends each grade in [0,100] to
     * that student's list, rejecting non-numeric and out-of-range tokens.
     * With no students nothing is read. Returns the tokens left over.
     */
    method AddGrades(tokens: seq<Option<int>>) returns (rest: seq<Option<int>>)
      requires Lockstep()
      modifies this
      ensures names == old(names) && Lockstep()
      ensures forall i :: 0 <= i < |grades| ==> grades[i] == old(grades)[i] + Received(|names|, tokens)[i]
      ensures rest == Remaining(|names|, tokens)
      ensures |names| == 0 ==> grades == old(grades) && rest == tokens
      ensures old(Valid()) ==> Valid()
    {
      if |names| == 0 {
        rest := tokens;
        return;
      }
      ghost var grades0 := grades;
      var pos := 0;
      for i := 0 to |names|
        invariant names == old(names) && |grades| == |grades0|
        invariant pos <= |tokens| && tokens[pos..] == Remaining(i, tokens)
        invariant forall j :: 0 <= j < i ==> grades[j] == grades0[j] + Received(i, tokens)[j]
        invariant forall j :: i <= j < |grades| ==> grades[j] == grades0[j]
      {
        ghost var start, prev := pos, grades;
        pos := EnterGradesFor(i, tokens, pos);
        IntakeStep(i, tokens, start, pos);
        ExtendNext(grades0, prev, grades, Received(i, tokens), i, ValidGrades(tokens[start..pos]));
        if pos < |tokens| {
          pos := pos + 1;
        }
      }
      rest := tokens[pos..];
      if old(Valid()) {
        ReceivedAreGrades(|names|, tokens);
        ExtendKeepsGrades(grades0, Received(|names|, tokens), grades);
      }
    }
  }
}
