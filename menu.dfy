/** The acceptance test for a menu line: one character, a digit from 1 to 4. */
module Menu {
  import opened Wrappers

  /** The character that spells digit d. */
  function DigitChar(d: int): char
    requires 0 <= d <= 9
  {
    ('0' as int + d) as char
  }

  /** The choice a menu line selects, or None when the line is refused and the prompt repeats. */
  function MenuChoice(input: string): (r: Option<int>)
    ensures r.Some? <==> |input| == 1 && '1' <= input[0] <= '4'
    ensures r.Some? ==> 1 <= r.value <= 4 && input == [DigitChar(r.value)]
  {
    if |input| == 1 && '1' <= input[0] <= '4' then Some(input[0] as int - '0' as int)
    else None
  }

  /** Typing a choice's digit selects that choice, and nothing else selects it. */
  lemma MenuChoiceOfDigit(input: string, d: int)
    requires 1 <= d <= 4
    ensures MenuChoice(input) == Some(d) <==> input == [DigitChar(d)]
  {
    if input == [DigitChar(d)] {
      assert input[0] as int - '0' as int == d;
    }
  }
}
