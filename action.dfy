/** The player actions a range file can declare. */
module Actions {
  import opened Base

  datatype Action = Call | Fold | Raise | Check | Bet

  /** The string value of an action. */
  function Value(a: Action): string {
    match a
    case Call => "call"
    case Fold => "fold"
    case Raise => "raise"
    case Check => "check"
    case Bet => "bet"
  }

  /** The enum constructor `Action(s)`: `None` stands for the `ValueError` it raises. */
  function Parse(s: string): (r: Option<Action>)
    ensures r.Some? ==> Value(r.value) == s
  {
    if s == "call" then Some(Call)
    else if s == "fold" then Some(Fold)
    else if s == "raise" then Some(Raise)
    else if s == "check" then Some(Check)
    else if s == "bet" then Some(Bet)
    else None
  }

  /** Every action is recovered from its value, so values are pairwise distinct. */
  lemma ParseValue(a: Action)
    ensures Parse(Value(a)) == Some(a)
  {
  }
}
