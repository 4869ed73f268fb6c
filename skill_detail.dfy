/**
 * The quiz and topic state of the skill-detail component: selecting and
 * revealing quiz answers, the CSS class each option is shown with, and
 * opening or closing a resource topic whose details arrive later.
 */
module SkillDetail {
  import opened Wrappers
  import opened Models

  /** What is being generated (`loadingType`), `null` when nothing is. */
  datatype GenerationType = Explanation | Code | QuizGeneration | Topics | TopicDetail | Practice | Feedback

  const HighlightedClass: string := "bg-sky-600/70 border-sky-500 ring-2 ring-offset-slate-800 ring-sky-500"
  const IdleClass: string := "bg-slate-700/50 border-slate-600 hover:bg-slate-700 hover:border-teal-500"
  const CorrectClass: string := "bg-green-500/30 border-green-500 text-white"
  const WrongClass: string := "bg-red-500/30 border-red-500 text-white"
  const DimmedClass: string := "bg-slate-800/60 border-slate-700 opacity-60"

  const TopicHighlightedClass: string := "bg-sky-600/70 border-sky-500 ring-1 ring-offset-slate-800/60 ring-sky-500"
  const TopicNoQuizClass: string := "bg-slate-700 border-slate-600"
  const TopicDimmedClass: string := "bg-slate-700/50 border-slate-600 opacity-60"

  /** `quiz()?.answer === option`: false when there is no quiz. */
  predicate IsAnswer(quiz: Option<Quiz>, option: string) {
    quiz.Some? && quiz.value.answer == option
  }

  class SkillDetailComponent {
    var quiz: Option<Quiz>
    var showAnswer: bool
    var selectedOption: Option<string>
    var selectedTopic: Option<string>
    var topicDetails: Option<TopicDetails>
    var topicQuizShowAnswer: bool
    var topicQuizSelectedOption: Option<string>
    var loadingType: Option<GenerationType>

    /** The signals' initial values. */
    constructor ()
      ensures quiz == None && !showAnswer && selectedOption == None
      ensures selectedTopic == None && topicDetails == None
      ensures !topicQuizShowAnswer && topicQuizSelectedOption == None && loadingType == None
    {
      quiz := None;
      showAnswer := false;
      selectedOption := None;
      selectedTopic := None;
      topicDetails := None;
      topicQuizShowAnswer := false;
      topicQuizSelectedOption := None;
      loadingType := None;
    }

    /** `selectOption`: ignored once the answer is shown. */
    method SelectOption(option: string)
      modifies this
      ensures selectedOption == if old(showAnswer) then old(selectedOption) else Some(option)
      ensures quiz == old(quiz) && showAnswer == old(showAnswer)
      ensures selectedTopic == old(selectedTopic) && topicDetails == old(topicDetails)
      ensures topicQuizShowAnswer == old(topicQuizShowAnswer) && topicQuizSelectedOption == old(topicQuizSelectedOption)
      ensures loadingType == old(loadingType)
    {
      if showAnswer {
        return;
      }
      selectedOption := Some(option);
    }

    /** `getOptionClass`. Before the reveal only the selection is highlighted; after it the
        answer is green whether or not it was chosen, a wrong choice is red and every other
        option is dimmed. */
    function GetOptionClass(option: string): (r: string)
      reads this
      ensures !showAnswer ==> (r == HighlightedClass <==> selectedOption == Some(option))
      ensures !showAnswer ==> (r == HighlightedClass || r == IdleClass)
      ensures showAnswer ==> (r == CorrectClass <==> IsAnswer(quiz, option))
      ensures showAnswer ==> (r == WrongClass <==> selectedOption == Some(option) && !IsAnswer(quiz, option))
      ensures showAnswer ==> (r == DimmedClass <==> selectedOption != Some(option) && !IsAnswer(quiz, option))
    {
      if !showAnswer then
        (if selectedOption == Some(option) then HighlightedClass else IdleClass)
      else
        var isCorrect := IsAnswer(quiz, option);
        var isSelected := selectedOption == Some(option);
        if isCorrect then CorrectClass
        else if isSelected && !isCorrect then WrongClass
        else DimmedClass
    }

    /** `selectTopicQuizOption`: ignored once the topic quiz's answer is shown. */
    method SelectTopicQuizOption(option: string)
      modifies this
      ensures topicQuizSelectedOption == if old(topicQuizShowAnswer) then old(topicQuizSelectedOption) else Some(option)
      ensures quiz == old(quiz) && showAnswer == old(showAnswer) && selectedOption == old(selectedOption)
      ensures selectedTopic == old(selectedTopic) && topicDetails == old(topicDetails)
      ensures topicQuizShowAnswer == old(topicQuizShowAnswer) && loadingType == old(loadingType)
    {
      if topicQuizShowAnswer {
        return;
      }
      topicQuizSelectedOption := Some(option);
    }

    /** The topic's quiz, `topicDetails()?.quiz`. */
    function TopicQuiz(): Option<Quiz>
      reads this
    {
      if topicDetails.Some? then topicDetails.value.quiz else None
    }

    /** `getTopicQuizOptionClass`: as `getOptionClass` for the open topic's quiz, with its own
        highlight and dimmed classes, and a neutral class for every option when the details
        hold no quiz. */
    function GetTopicQuizOptionClass(option: string): (r: string)
      reads this
      ensures !topicQuizShowAnswer ==> (r == TopicHighlightedClass <==> topicQuizSelectedOption == Some(option))
      ensures !topicQuizShowAnswer ==> (r == TopicHighlightedClass || r == IdleClass)
      ensures topicQuizShowAnswer && TopicQuiz().None? ==> r == TopicNoQuizClass
      ensures topicQuizShowAnswer && TopicQuiz().Some? ==>
        (r == CorrectClass <==> IsAnswer(TopicQuiz(), option)) &&
        (r == WrongClass <==> topicQuizSelectedOption == Some(option) && !IsAnswer(TopicQuiz(), option)) &&
        (r == TopicDimmedClass <==> topicQuizSelectedOption != Some(option) && !IsAnswer(TopicQuiz(), option))
    {
      if !topicQuizShowAnswer then
        (if topicQuizSelectedOption == Some(option) then TopicHighlightedClass else IdleClass)
      else
        var quiz := TopicQuiz();
        if quiz.None? then TopicNoQuizClass
        else
          var isCorrect := option == quiz.value.answer;
          var isSelected := topicQuizSelectedOption == Some(option);
          if isCorrect then CorrectClass
          else if isSelected && !isCorrect then WrongClass
          else TopicDimmedClass
    }

    /** `selectTopic(topic)` up to its `await`. Selecting the open topic closes it and clears
        its details, with no fetch; any other topic becomes the selected one with its details,
        reveal flag and selection reset and `loadingType` set. Returns whether a fetch of the
        topic's details is now awaited. */
    method SelectTopic(topic: string) returns (fetching: bool)
      modifies this
      ensures fetching <==> old(selectedTopic) != Some(topic)
      ensures !fetching ==> selectedTopic == None && topicDetails == None
      ensures !fetching ==> topicQuizShowAnswer == old(topicQuizShowAnswer) && topicQuizSelectedOption == old(topicQuizSelectedOption)
      ensures !fetching ==> loadingType == old(loadingType)
      ensures fetching ==> selectedTopic == Some(topic) && topicDetails == None
      ensures fetching ==> !topicQuizShowAnswer && topicQuizSelectedOption == None && loadingType == Some(TopicDetail)
      ensures quiz == old(quiz) && showAnswer == old(showAnswer) && selectedOption == old(selectedOption)
    {
      if selectedTopic == Some(topic) {
        selectedTopic := None;
        topicDetails := None;
        return false;
      }
      selectedTopic := Some(topic);
      topicDetails := None;
      topicQuizShowAnswer := false;
      topicQuizSelectedOption := None;
      loadingType := Some(TopicDetail);
      return true;
    }

    /** The rest of `selectTopic(topic)` once the fetch yields `result`: the details are
        stored only if `topic` is still the selected one, and `loadingType` is cleared
        either way. */
    method ReceiveTopicDetail(topic: string, result: Option<TopicDetails>)
      modifies this
      ensures topicDetails == if old(selectedTopic) == Some(topic) then result else old(topicDetails)
      ensures loadingType == None
      ensures selectedTopic == old(selectedTopic)
      ensures topicQuizShowAnswer == old(topicQuizShowAnswer) && topicQuizSelectedOption == old(topicQuizSelectedOption)
      ensures quiz == old(quiz) && showAnswer == old(showAnswer) && selectedOption == old(selectedOption)
    {
      if selectedTopic == Some(topic) {
        topicDetails := result;
      }
      loadingType := None;
    }
  }

  /** After the reveal no two options are both shown as correct, and no two as wrong. */
  lemma RevealedClassesUnique(c: SkillDetailComponent, a: string, b: string)
    requires c.showAnswer && a != b
    ensures !(c.GetOptionClass(a) == CorrectClass && c.GetOptionClass(b) == CorrectClass)
    ensures !(c.GetOptionClass(a) == WrongClass && c.GetOptionClass(b) == WrongClass)
  {
  }

  /** Before the reveal at most one option is highlighted. */
  lemma OneHighlighted(c: SkillDetailComponent, a: string, b: string)
    requires !c.showAnswer && a != b
    ensures !(c.GetOptionClass(a) == HighlightedClass && c.GetOptionClass(b) == HighlightedClass)
  {
  }

  /** A result that arrives after another topic was selected is discarded: opening `a`,
      then `b`, then receiving `a`'s details leaves `b` open with no details. */
  method StaleTopicResult(c: SkillDetailComponent, a: string, b: string, result: Option<TopicDetails>)
    requires a != b
    modifies c
    ensures c.selectedTopic == Some(b) && c.topicDetails == None && c.loadingType == None
  {
    var _ := c.SelectTopic(a);
    var _ := c.SelectTopic(b);
    c.ReceiveTopicDetail(a, result);
  }
}
