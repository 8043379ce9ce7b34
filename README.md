# Grade book (Chapter 7, exercise 12) in Dafny

This project models the logic of a small console grade book. The program keeps
two parallel vectors, the student names and one list of integer grades per
student, in lockstep by index. It has three parts with real logic:

* **Grade calculation.** `CalculateAverage` averages a list after dropping one
  lowest grade. An empty list gives 0 and a one-element list gives that grade.
  `GetLetterGrade` maps an average to A/B/C/D/F with inclusive lower cutoffs of
  90, 80, 70 and 60.
* **Roster intake.** `AddStudents` reads names until the line `done`, skips
  blank lines, and appends each other name together with an empty grade list.
  `AddGrades` walks the roster in order. For each student it reads grades until
  `-1` and stores only the values in [0,100].
* **Menu validation.** A menu line is accepted exactly when it is one character
  from `1` to `4`.

Modules:

* `Wrappers` (`wrappers.dfy`): `Option`.
* `Grading` (`grading.dfy`):
  * The specification functions `Sum`, `Min`, `Max`, `RemoveOne`, `Mean` and
    `AverageDroppingLowest`.
  * The single-pass averaging loop `CalculateAverage`, proved against them.
  * `LetterGrade` and the lemmas about both.
* `Menu` (`menu.dfy`): the acceptance test of a menu line.
* `Roster` (`roster.dfy`):
  * The specification of intake over the input read so far: `AcceptedNames`,
    `AfterNames`, `StudentGrades`, `Received` and `Remaining`.
  * The class `GradeBook`. Its fields `names: seq<string>` and
    `grades: seq<seq<int>>` are the two vectors. Its methods `AddStudents`,
    `EnterGradesFor` and `AddGrades` append to them in place with the source's
    sentinel loops.

Console input is modelled as a sequence of tokens:

* Name entry reads lines (`seq<string>`).
* Grade entry reads `Option<int>` tokens, where `None` is a token that does not
  parse as an integer.
* `AddStudents` and `AddGrades` return the input they did not read. `EnterGradesFor` returns the index where it stopped.

The average is an exact `real` equal to (sum − lowest) / (n − 1), not an IEEE
double.

The source's own header says grades are "positive, <101". The code accepts 0,
and the model follows the code: it accepts [0,100].

## Model

| member | source | states |
|---|---|---|
| `Grading.CalculateAverage` | Chapter7Ex12_GradeBook.cpp:211-227 | Returns 0 for no grades and the grade itself for one grade, with nothing dropped in either case. For two or more grades it returns `AverageDroppingLowest`, which is (sum of the list − its minimum) / (n − 1). This works because the loop's running sum and running lowest end as the sum and the minimum of the list. |
| `Grading.Min` | Chapter7Ex12_GradeBook.cpp:217-224 | The lowest grade is an element of the list and is at most every element. |
| `Grading.Max` | Chapter7Ex12_GradeBook.cpp:211-226 | The highest grade is an element of the list and is at least every element. This is used for the bound on the average. |
| `Grading.RemoveOneFacts` | Chapter7Ex12_GradeBook.cpp:226 | Removing one occurrence of an element shortens the list by one, lowers the sum by that element, and takes exactly one copy out of the multiset. |
| `Grading.DropsExactlyOneLowest` | Chapter7Ex12_GradeBook.cpp:216-226 | For two or more grades, `sum - lowest` drops exactly one occurrence of the minimum (other tied copies stay). The average is the exact mean of the remaining n − 1 grades. |
| `Grading.SumBounds` | Chapter7Ex12_GradeBook.cpp:219-224 | When every grade lies in [lo,hi], the sum lies between n·lo and n·hi. |
| `Grading.AverageWithinRange` | Chapter7Ex12_GradeBook.cpp:216-226 | For two or more grades, the average lies between the lowest and the highest grade. |
| `Grading.AverageOfValidGradesIsValid` | Chapter7Ex12_GradeBook.cpp:211-226 | When every grade is in [0,100], the average is in [0,100], whatever the number of grades. |
| `Grading.LetterGrade` | Chapter7Ex12_GradeBook.cpp:233-240 | The letter is one of A, B, C, D and F. It is the best letter whose inclusive cutoff (90/80/70/60) the average reaches: the average is at least that letter's cutoff and below the next better letter's cutoff. |
| `Grading.LetterGradeMonotone` | Chapter7Ex12_GradeBook.cpp:233-239 | A higher average never earns a worse letter. |
| `Grading.LetterGradeBoundaries` | Chapter7Ex12_GradeBook.cpp:235-238 | 90, 80, 70 and 60 each earn the higher letter; 89.99, 79.99, 69.99 and 59.99 earn the lower one. |
| `Grading.WorkedCases` | Chapter7Ex12_GradeBook.cpp:211-239 | [70,80,90] averages 85, a B. [100] averages 100, an A. No grades averages 0, an F. |
| `Menu.MenuChoice` | Chapter7Ex12_GradeBook.cpp:94-97 | A line is accepted exactly when it is one character from '1' to '4'. An accepted choice is in 1..4, and the line is that choice's digit. |
| `Menu.MenuChoiceOfDigit` | Chapter7Ex12_GradeBook.cpp:94-97 | Choice d in 1..4 is selected by its own digit and by no other line. |
| `Roster.DoneIndex` | Chapter7Ex12_GradeBook.cpp:113-118 | Name entry stops at the first `done` line, or at the end of input when there is none. |
| `Roster.NonBlank` | Chapter7Ex12_GradeBook.cpp:120-128 | Keeping only non-blank names yields no blank name and no more names than lines. |
| `Roster.NonBlankMembers` | Chapter7Ex12_GradeBook.cpp:120-128 | A string survives the blank filter exactly when it is non-blank and was in the input. |
| `Roster.AcceptedNamesStopAtDone` | Chapter7Ex12_GradeBook.cpp:113-129 | With input pre + [done] + post and no `done` in pre, the accepted names are the non-blank lines of pre and exactly post is left unread. |
| `Roster.AcceptedNamesMembers` | Chapter7Ex12_GradeBook.cpp:118-128 | A name is accepted exactly when it is non-blank and was typed before the first `done`. No accepted name is `done`. |
| `Roster.SentinelIndex` | Chapter7Ex12_GradeBook.cpp:149-154 | A student's grade entry stops at the first -1 token, or at the end of input when there is none. |
| `Roster.ValidGrades` | Chapter7Ex12_GradeBook.cpp:156-164 | Every stored grade is in [0,100]. Non-numeric and out-of-range tokens are not stored. |
| `Roster.ValidGradesMembers` | Chapter7Ex12_GradeBook.cpp:156-164 | v is stored exactly when v is in [0,100] and was entered. |
| `Roster.StudentGradesMembers` | Chapter7Ex12_GradeBook.cpp:149-165 | A student receives v exactly when v is in [0,100] and was entered before that student's -1. The sentinel is never stored. |
| `Roster.StudentStopsAtSentinel` | Chapter7Ex12_GradeBook.cpp:149-165 | With tokens pre + [-1] + post and no -1 in pre, the student receives the valid grades of pre, in order, and post is left for the next student. |
| `Roster.StudentWorkedCase` | Chapter7Ex12_GradeBook.cpp:149-165 | The tokens 85, a non-number, 101, 90, -1, 70 give the student [85, 90] and leave 70 unread. |
| `Roster.StudentSpan` | Chapter7Ex12_GradeBook.cpp:149-165 | If index k holds the first -1 (or is the end of input), the student's grades are the valid tokens before k and the rest is what follows k. |
| `Roster.IntakeStep` | Chapter7Ex12_GradeBook.cpp:144-168 | Student i+1's grade entry starts where student i's stopped, just past its -1. It adds that student's grades as the next list. |
| `Roster.ReceivedAt` | Chapter7Ex12_GradeBook.cpp:144-165 | Student i's share of grade entry is the valid grades before student i's own -1, read from where the previous students' entry stopped. |
| `Roster.ReceivedAreGrades` | Chapter7Ex12_GradeBook.cpp:156-164 | Every grade that grade entry hands to any student is in [0,100]. |
| `Roster.GradeBook.constructor` | Chapter7Ex12_GradeBook.cpp:37-38 | The grade book starts with no names and no grade lists. |
| `Roster.GradeBook.AddStudents` | Chapter7Ex12_GradeBook.cpp:108-130 | Names gain exactly the accepted names, in input order. Grades gain one empty list per accepted name. Existing entries are unchanged. The lines after `done` are returned. Lockstep and the roster invariant are preserved. |
| `Roster.GradeBook.EnterGradesFor` | Chapter7Ex12_GradeBook.cpp:149-165 | Only student i's list changes. It gains the valid grades up to the first -1 or the end of input, where the method stops. |
| `Roster.GradeBook.AddGrades` | Chapter7Ex12_GradeBook.cpp:136-169 | Names and the roster length are unchanged. Each grades[i] is only extended, by the grades student i receives in roster order. The unread tokens are returned. With no students nothing changes and nothing is read. The roster invariant (every grade in [0,100]) is preserved. |

## Left out

* Console output is not modelled: the prompts, the error messages, `DisplayMenu`, and the text and `setprecision(2)` formatting of `DisplayGrades`. The only logic in `DisplayGrades` is skipping students with no grades and calling `CalculateAverage` and `GetLetterGrade`, and those two are modelled.
* The dispatch loop in `main` and the retry loop around the menu check are interactive plumbing and are not modelled. Only the acceptance test of one line is modelled.
* The mechanics of the `cin` stream (`fail`, `clear`, `ignore`) are abstracted as a token sequence. A numeric token is `Some(v)` and any other token is `None`. Discarding the rest of an input line after a rejected grade, or after the `-1`, is not modelled. Neither is splitting a line such as `3.5` into several reads.
* End of input is modelled differently. At the end of input the program never leaves its loops. Name entry re-prompts forever on a blank line, or, when the last line has no trailing newline, `getline` keeps leaving that last name in place and it is appended again on every pass. Grade entry re-prompts forever once `cin` fails. The model stops when the lines or tokens run out.
* `Grading.CalculateAverage`: the average is an exact real, not an IEEE double. Rounding of the division is not modelled.
* C++ `int` overflow of the running sum is not modelled. Integers are unbounded, and the sum cannot overflow for realistic roster sizes with grades of at most 100.
* Grade search, edit and delete, and saving or loading the roster in a text file, are not part of this model. They do not appear in the program modelled here.
* The model uses two parallel sequences, as the program does, rather than a single sequence of student records.
