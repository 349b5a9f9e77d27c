/**
 * The knowledge checkpoint: a multiple-choice question whose options arrive
 * either as a list or as a JSON string. The reader picks an option and checks
 * it; the options are then coloured by correctness, and after a wrong answer
 * the quiz can be reset.
 */
module CheckpointQuiz {
  import opened Wrappers

  datatype QuizOption = QuizOption(text: string, isCorrect: bool)

  /** What the `options` prop can hold: nothing, a JSON string, a list, or anything else. */
  datatype OptionsProp = Absent | JsonText(text: string) | List(options: seq<QuizOption>) | OtherValue

  /**
   * `parsedOptions`: a string is parsed (`parsed` is what `JSON.parse` returns for it,
   * `None` when it throws), a list is used as it is, and anything else gives no options.
   */
  function NormaliseOptions(prop: OptionsProp, parsed: Option<seq<QuizOption>>): (options: seq<QuizOption>)
    ensures prop.JsonText? && parsed.Some? ==> options == parsed.value
    ensures prop.List? ==> options == prop.options
    ensures options != [] ==> (prop.JsonText? && parsed.Some?) || prop.List?
  {
    match prop
    case JsonText(_) => if parsed.Some? then parsed.value else []
    case List(options) => options
    case _ => []
  }

  /** A string that does not parse, or a value that is neither string nor list, shows no options. */
  lemma NoOptionsOnFailure(text: string, parsed: Option<seq<QuizOption>>)
    ensures NormaliseOptions(JsonText(text), None) == []
    ensures NormaliseOptions(Absent, parsed) == [] && NormaliseOptions(OtherValue, parsed) == []
  {
  }

  // ---------------------------------------------------------------------
  // how an option is drawn

  datatype Style = Plain | Highlighted | Correct | Wrong | Dimmed

  /** The style chosen for option `idx` in the options list. */
  function OptionStyle(idx: nat, option: QuizOption, selectedIdx: Option<nat>, isRevealed: bool): (s: Style)
    ensures !isRevealed ==> (s == Highlighted <==> selectedIdx == Some(idx))
    ensures !isRevealed ==> s == Highlighted || s == Plain
    ensures isRevealed ==> (s == Correct <==> option.isCorrect)
    ensures isRevealed ==> (s == Wrong <==> selectedIdx == Some(idx) && !option.isCorrect)
    ensures isRevealed ==> s != Plain && s != Highlighted
  {
    var isSelected := selectedIdx == Some(idx);
    if isSelected && !isRevealed then Highlighted
    else if isRevealed then
      if option.isCorrect then Correct
      else if isSelected && !option.isCorrect then Wrong
      else Dimmed
    else Plain
  }

  /** After the reveal at most one option is marked wrong, and none when the choice was right. */
  lemma AtMostOneWrong(options: seq<QuizOption>, selectedIdx: Option<nat>, i: nat, j: nat)
    requires i < |options| && j < |options|
    requires OptionStyle(i, options[i], selectedIdx, true) == Wrong
    ensures OptionStyle(j, options[j], selectedIdx, true) == Wrong ==> i == j
    ensures !options[selectedIdx.value].isCorrect
  {
  }

  // ---------------------------------------------------------------------
  // the component's state

  class Quiz {
    const options: seq<QuizOption>
    var selectedIdx: Option<nat>
    var isRevealed: bool

    /** The selection is one of the options, and only a selection can be revealed. */
    ghost predicate Valid()
      reads this
    {
      (selectedIdx.Some? ==> selectedIdx.value < |options|) && (isRevealed ==> selectedIdx.Some?)
    }

    constructor (prop: OptionsProp, parsed: Option<seq<QuizOption>>)
      ensures Valid()
      ensures options == NormaliseOptions(prop, parsed) && selectedIdx == None && !isRevealed
    {
      options := NormaliseOptions(prop, parsed);
      selectedIdx := None;
      isRevealed := false;
    }

    /** The option buttons are disabled once the answer is revealed. */
    predicate OptionsDisabled()
      reads this
    {
      isRevealed
    }

    /** `disabled={selectedIdx === null || isRevealed}` on the Check button. */
    predicate CheckDisabled()
      reads this
    {
      selectedIdx.None? || isRevealed
    }

    /** Clicking option `idx`: it becomes the selection, unless its button is disabled. */
    method Select(idx: nat)
      requires Valid() && idx < |options|
      modifies this`selectedIdx
      ensures Valid()
      ensures selectedIdx == if old(isRevealed) then old(selectedIdx) else Some(idx)
    {
      if isRevealed {
        return;
      }
      selectedIdx := Some(idx);
    }

    /** `handleCheck`: nothing without a selection; otherwise the answer is revealed. `celebrate` is the confetti. */
    method Check() returns (celebrate: bool)
      requires Valid()
      modifies this`isRevealed
      ensures Valid()
      ensures isRevealed == (old(isRevealed) || selectedIdx.Some?)
      ensures celebrate <==> selectedIdx.Some? && options[selectedIdx.value].isCorrect
    {
      if selectedIdx.None? {
        return false;
      }
      isRevealed := true;
      celebrate := options[selectedIdx.value].isCorrect;
    }

    /** The verdict shown after the reveal: whether the selected option is correct. */
    function Verdict(): (correct: bool)
      reads this
      requires Valid() && isRevealed
      ensures correct <==> options[selectedIdx.value].isCorrect
      ensures correct <==> OptionStyle(selectedIdx.value, options[selectedIdx.value], selectedIdx, isRevealed) == Correct
    {
      options[selectedIdx.value].isCorrect
    }

    /** The "Try again" button is drawn only after a wrong answer has been revealed. */
    predicate RetryOffered()
      reads this
      requires Valid()
    {
      isRevealed && !options[selectedIdx.value].isCorrect
    }

    /** "Try again", drawn only after a wrong answer: back to no selection and nothing revealed. */
    method Retry()
      requires Valid() && RetryOffered()
      modifies this`selectedIdx, this`isRevealed
      ensures Valid()
      ensures selectedIdx == None && !isRevealed && CheckDisabled()
    {
      isRevealed := false;
      selectedIdx := None;
    }
  }
}
