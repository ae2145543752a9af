/** A range file: its name gives the board cards and the action the range stands for. */
module FileModel {
  import opened Base
  import opened Strings
  import opened Actions
  import opened CardParser
  import opened Combinatorics

  datatype File = File(cards: seq<string>, action: Action)

  /** The two ways the constructor raises: a bad unpacking of the stem, an unknown action. */
  datatype FileError = WrongPartCount(parts: nat) | UnknownAction(text: string)

  /**
    The constructor on a file's stem: split at `_` into exactly the board part and the action
    part, chunk the board into card codes and read the case-folded action.
   */
  function FromStem(stem: string): (r: Result<File, FileError>)
  {
    var parts := Split(stem, '_');
    if |parts| != 2 then Err(WrongPartCount(|parts|))
    else
      match Parse(CaseFold(parts[1]))
      case None => Err(UnknownAction(parts[1]))
      case Some(a) => Ok(File(ParseCards(parts[0]), a))
  }

  /** Every 3-card board drawn from the file's cards, in positional order. */
  function Combos(f: File): seq<seq<string>> {
    Combinations(f.cards, 3)
  }

  /**
    A stem is accepted exactly when it holds one `_` and the case-folded text after it names
    an action; the cards then concatenate back to the text before the `_`, and the action's
    value is that case-folded text.
   */
  lemma FromStemOk(stem: string)
    ensures |Split(stem, '_')| == Count(stem, '_') + 1
    ensures FromStem(stem).Ok? <==>
      |Split(stem, '_')| == 2 && Parse(CaseFold(Split(stem, '_')[1])).Some?
    ensures FromStem(stem).Ok? ==>
      && Flatten(FromStem(stem).value.cards) == Split(stem, '_')[0]
      && Value(FromStem(stem).value.action) == CaseFold(Split(stem, '_')[1])
    ensures Count(stem, '_') != 1 ==> FromStem(stem) == Err(WrongPartCount(Count(stem, '_') + 1))
  {
    SplitCount(stem, '_');
    if FromStem(stem).Ok? {
      ChunksConcat(Split(stem, '_')[0]);
    }
  }

  /** Naming a file after its card codes and action and reading the name back gives them. */
  lemma FromStemRoundTrip(codes: seq<string>, a: Action)
    requires forall i :: 0 <= i < |codes| ==> |codes[i]| == 2 && '_' !in codes[i]
    ensures FromStem(Flatten(codes) + "_" + Value(a)) == Ok(File(codes, a))
  {
    var board := Flatten(codes);
    assert '_' !in board by {
      if '_' in board {
        FlattenMember(codes, '_');
      }
    }
    ValueLowerCase(a);
    SplitPair(board, Value(a), '_');
    ParseValue(a);
    ParseConcatenated(codes);
  }

  /** An action's value is lower-case and free of `_`. */
  lemma ValueLowerCase(a: Action)
    ensures '_' !in Value(a)
    ensures CaseFold(Value(a)) == Value(a)
  {
  }

  /** A stem made of a `_`-free board part, one `_` and a `_`-free action part. */
  lemma FromStemOfParts(board: string, act: string)
    requires '_' !in board && '_' !in act
    ensures FromStem(board + "_" + act) ==
      match Parse(CaseFold(act))
      case None => Err(UnknownAction(act))
      case Some(a) => Ok(File(ParseCards(board), a))
  {
    SplitPair(board, act, '_');
  }

  /** The action part is read case-insensitively. */
  lemma FromStemExampleUpperCase()
    ensures FromStem("AhKd7c_CALL") == Ok(File(["Ah", "Kd", "7c"], Call))
  {
    assert ParseCards("AhKd7c") == ["Ah", "Kd", "7c"] by {
      var cards := ParseCards("AhKd7c");
      assert cards[0] == "Ah" && cards[1] == "Kd" && cards[2] == "7c";
    }
    assert Parse(CaseFold("CALL")) == Some(Call) by {
      assert CaseFold("CALL") == "call";
    }
    FromStemOfParts("AhKd7c", "CALL");
    assert "AhKd7c" + "_" + "CALL" == "AhKd7c_CALL";
  }

  /** The long s folds to `s`, so `raiſe` names a raise. */
  lemma FromStemExampleLongS()
    ensures FromStem("AhKd7c_rai\U{017F}e") == Ok(File(["Ah", "Kd", "7c"], Raise))
  {
    assert ParseCards("AhKd7c") == ["Ah", "Kd", "7c"] by {
      var cards := ParseCards("AhKd7c");
      assert cards[0] == "Ah" && cards[1] == "Kd" && cards[2] == "7c";
    }
    assert Parse(CaseFold("rai\U{017F}e")) == Some(Raise) by {
      assert CaseFold("rai\U{017F}e") == "raise";
    }
    FromStemOfParts("AhKd7c", "rai\U{017F}e");
    assert "AhKd7c" + "_" + "rai\U{017F}e" == "AhKd7c_rai\U{017F}e";
  }

  /** A second `_` is an unpacking error. */
  lemma FromStemExampleTooManyParts()
    ensures FromStem("Ah_Kd7c_call") == Err(WrongPartCount(3))
  {
    SplitTriple("Ah", "Kd7c", "call", '_');
    assert "Ah" + "_" + "Kd7c" + "_" + "call" == "Ah_Kd7c_call";
  }

  /** A stem without `_` is an unpacking error. */
  lemma FromStemExampleNoAction()
    ensures FromStem("AhKd7c") == Err(WrongPartCount(1))
  {
    SplitNone("AhKd7c", '_');
  }

  /** A sized bet is not an action of the enum. */
  lemma FromStemExampleSizedBet()
    ensures FromStem("AhKd7c_bet1") == Err(UnknownAction("bet1"))
  {
    FromStemOfParts("AhKd7c", "bet1");
    assert "AhKd7c" + "_" + "bet1" == "AhKd7c_bet1";
    assert CaseFold("bet1") == "bet1";
  }

  /**
    The boards are exactly the 3-card selections of the file's cards at increasing positions,
    C(n, 3) of them.
   */
  lemma CombosShape(f: File)
    ensures |Combos(f)| == Binomial(|f.cards|, 3)
    ensures forall c :: c in Combos(f) ==> |c| == 3
    ensures forall c :: c in Combos(f) ==>
      exists idx :: Increasing(idx, |f.cards|) && |idx| == 3 && c == Select(f.cards, idx)
    ensures forall idx :: Increasing(idx, |f.cards|) && |idx| == 3 ==> Select(f.cards, idx) in Combos(f)
  {
    forall c | c in Combos(f)
      ensures exists idx :: Increasing(idx, |f.cards|) && |idx| == 3 && c == Select(f.cards, idx)
    {
      var idx := CombinationIndices(f.cards, 3, c);
    }
    forall idx | Increasing(idx, |f.cards|) && |idx| == 3 ensures Select(f.cards, idx) in Combos(f) {
      SelectionIsCombination(f.cards, idx);
    }
  }

  /** A flop gives one board, a river five cards ten. */
  lemma CombosCounts(f: File)
    ensures |f.cards| == 3 ==> |Combos(f)| == 1
    ensures |f.cards| == 4 ==> |Combos(f)| == 4
    ensures |f.cards| == 5 ==> |Combos(f)| == 10
  {
    BoardCombinationCounts();
  }
}
