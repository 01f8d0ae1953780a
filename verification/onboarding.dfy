/** The seven-question onboarding wizard. It asks one question per step,
    keeps the answers in a map keyed by the step's id, and on the last step
    hands all answers to the profile save, which runs only for a signed-in
    user. */
module Onboarding {
  import opened Text

  datatype Option<T> = None | Some(value: T)

  /** How a step is answered: free text, one choice, or several choices. */
  datatype StepKind = TextStep | ChoiceStep(choices: seq<string>) | MultiChoiceStep(choices: seq<string>)

  datatype Step = Step(id: string, question: string, kind: StepKind)

  /** The questions, in the order they are asked. */
  const Steps: seq<Step> := [
    Step("name", "What's your name?", TextStep),
    Step("school", "What school do you go to?", TextStep),
    Step("grade", "What grade are you in?",
         ChoiceStep(["9th Grade", "10th Grade", "11th Grade", "12th Grade"])),
    Step("gpa", "What's your current GPA?", TextStep),
    Step("sat", "Have you taken the SAT? If so, what's your score?", TextStep),
    Step("dream_schools", "What are your dream schools?", TextStep),
    Step("interests", "What are you most interested in?",
         MultiChoiceStep(["Computer Science", "Medicine", "Business", "Engineering",
                          "Arts", "Law", "Research", "Entrepreneurship"]))
  ]

  /** The index of the last step. */
  const LastStep: nat := |Steps| - 1

  /** A stored answer: a string, or the list of selected choices. */
  datatype Answer = Single(text: string) | Multiple(choices: seq<string>)

  /** Multi-choice steps store a list, all other steps a string. */
  predicate Fits(a: Answer, k: StepKind) {
    a.Multiple? <==> k.MultiChoiceStep?
  }

  /** `answers` holds an answer of the right shape for each of the first `n`
      steps, under that step's id. */
  predicate AnsweredUpTo(answers: map<string, Answer>, n: int) {
    forall i :: 0 <= i < n && i < |Steps| ==>
      Steps[i].id in answers && Fits(answers[Steps[i].id], Steps[i].kind)
  }

  /** No two steps share an id. */
  lemma IdsDistinct()
    ensures forall i, j :: 0 <= i < j < |Steps| ==> Steps[i].id != Steps[j].id
  {
  }

  /** The value `handleNext` stores for a step of kind `kind`. */
  function AnswerFor(kind: StepKind, currentAnswer: string, selected: seq<string>): (a: Answer)
    ensures Fits(a, kind)
    ensures a == Single(currentAnswer) || a == Multiple(selected)
  {
    if kind.MultiChoiceStep? then Multiple(selected) else Single(currentAnswer)
  }

  /** An answer with nothing in it. */
  predicate IsEmpty(a: Answer) {
    match a
    case Single(s) => s == []
    case Multiple(cs) => cs == []
  }

  /** The `disabled` condition of the Next button: it is disabled exactly
      while saving or while the answer it would store is empty. */
  function NextDisabled(saving: bool, kind: StepKind, currentAnswer: string, selected: seq<string>): (d: bool)
    ensures d <==> saving || IsEmpty(AnswerFor(kind, currentAnswer, selected))
  {
    saving
    || (kind.TextStep? && currentAnswer == [])
    || (kind.ChoiceStep? && currentAnswer == [])
    || (kind.MultiChoiceStep? && |selected| == 0)
  }

  /** A key press in the text input submits exactly when it is Enter and the
      input is not empty; the input exists only on text steps. */
  function KeySubmits(kind: StepKind, key: string, currentAnswer: string): (b: bool)
    ensures b <==> key == "Enter" && kind.TextStep? && !IsEmpty(AnswerFor(kind, currentAnswer, []))
  {
    kind.TextStep? && key == "Enter" && currentAnswer != []
  }

  /** Enter submits only what the Next button, when not saving, would also
      accept. */
  lemma KeySubmitsWhenNextEnabled(kind: StepKind, key: string, currentAnswer: string, selected: seq<string>)
    requires KeySubmits(kind, key, currentAnswer)
    ensures !NextDisabled(false, kind, currentAnswer, selected)
  {
  }

  /** `s` with every occurrence of `c` removed, the rest in order. */
  function Without(s: seq<string>, c: string): (r: seq<string>)
    ensures c !in r && |r| <= |s|
    ensures forall x :: x != c ==> multiset(r)[x] == multiset(s)[x]
    ensures forall x :: x != c ==> (x in r <==> x in s)
    ensures c !in s ==> r == s
  {
    if s == [] then []
    else
      var rest := Without(s[1..], c);
      assert s == [s[0]] + s[1..];
      assert forall x :: x in s <==> x == s[0] || x in s[1..];
      if s[0] == c then rest else [s[0]] + rest
  }

  /** Removal works piece by piece, so the kept elements stay in order. */
  lemma {:induction false} WithoutConcat(a: seq<string>, b: seq<string>, c: string)
    ensures Without(a + b, c) == Without(a, c) + Without(b, c)
  {
    if a == [] {
      assert a + b == b;
    } else {
      var ab := a + b;
      assert ab[0] == a[0];
      assert ab[1..] == a[1..] + b;
      WithoutConcat(a[1..], b, c);
      var h := if a[0] == c then [] else [a[0]];
      assert Without(ab, c) == h + Without(a[1..] + b, c);
      assert Without(a, c) == h + Without(a[1..], c);
    }
  }

  /** Removing `c` twice removes nothing more. */
  lemma WithoutTwice(s: seq<string>, c: string)
    ensures Without(Without(s, c), c) == Without(s, c)
  {
  }

  /** Appending `c` and then removing it is removing it. */
  lemma {:induction false} WithoutAppended(s: seq<string>, c: string)
    ensures Without(s + [c], c) == Without(s, c)
  {
    if s == [] {
      assert [] + [c] == [c];
      assert [c][1..] == [];
    } else {
      WithoutAppended(s[1..], c);
      assert (s + [c])[1..] == s[1..] + [c];
    }
  }

  /** `toggleChoice`: a selected choice is removed (every occurrence), an
      unselected one is appended at the end. Only the membership of `c`
      changes, and the other choices keep their relative order. */
  function ToggleMembership(selected: seq<string>, c: string): (r: seq<string>)
    ensures c in r <==> c !in selected
    ensures forall x :: x != c ==> (x in r <==> x in selected)
    ensures Without(r, c) == Without(selected, c)
    ensures c !in selected ==> r == selected + [c]
  {
    if c in selected then
      WithoutTwice(selected, c);
      Without(selected, c)
    else
      WithoutAppended(selected, c);
      selected + [c]
  }

  /** Toggling a choice that was not selected, twice, restores the list. */
  lemma ToggleTwiceRestores(selected: seq<string>, c: string)
    requires c !in selected
    ensures ToggleMembership(ToggleMembership(selected, c), c) == selected
  {
  }

  /** The "Step n of 7" caption: n runs from 1 to 7. */
  function StepNumber(step: int): (n: int)
    requires 0 <= step <= LastStep
    ensures 1 <= n <= |Steps|
    ensures n == |Steps| <==> step == LastStep
  {
    step + 1
  }

  /** `Math.round((step + 1) / 7 * 100)`: the percentage in the caption. */
  function StepPercent(step: int): (p: int)
    requires 0 <= step <= LastStep
    ensures 0 < p <= 100
    ensures p == 100 <==> step == LastStep
    ensures 200 * (step + 1) - |Steps| < 2 * |Steps| * p <= 200 * (step + 1) + |Steps|
  {
    (200 * (step + 1) + |Steps|) / (2 * |Steps|)
  }

  /** The percentage grows with every step. */
  lemma StepPercentIncreases(step: int)
    requires 0 <= step < LastStep
    ensures StepPercent(step) < StepPercent(step + 1)
  {
  }

  /** A trimmed piece never contains a character the untrimmed one lacks. */
  lemma TrimKeepsOut(s: string, c: char)
    requires c !in s
    ensures c !in Trim(s)
  {
    var r, a := Trim(s), |s| - |TrimStart(s)|;
    assert s[a..a + |r|] == r;
  }

  /** `dream_schools.split(",").map((s) => s.trim())`: one entry per comma
      plus one, each free of commas and of surrounding whitespace. Which
      entry is which is stated by `DreamSchoolsRoundTrip`. */
  function DreamSchools(s: string): (r: seq<string>)
    ensures |r| == Occurrences(s, ',') + 1
    ensures forall i :: 0 <= i < |r| ==> ',' !in r[i] && Stripped(r[i])
  {
    var pieces := Split(s, ',');
    seq(|pieces|, i requires 0 <= i < |pieces| =>
      TrimKeepsOut(pieces[i], ',');
      Trim(pieces[i]))
  }

  /** School names without commas, typed separated by commas with any
      spacing around them, come back as the same names trimmed, in order;
      names already without surrounding spaces come back unchanged. Every
      answer is such a join, of its own comma pieces (`JoinSplit`). */
  lemma DreamSchoolsRoundTrip(names: seq<string>)
    requires |names| > 0
    requires forall i :: 0 <= i < |names| ==> ',' !in names[i]
    ensures DreamSchools(Join(names, ',')) == seq(|names|, i requires 0 <= i < |names| => Trim(names[i]))
    ensures (forall i :: 0 <= i < |names| ==> Stripped(names[i])) ==> DreamSchools(Join(names, ',')) == names
  {
    SplitJoin(names, ',');
    if forall i :: 0 <= i < |names| ==> Stripped(names[i]) {
      forall i | 0 <= i < |names| ensures DreamSchools(Join(names, ','))[i] == names[i] {
        TrimStripped(names[i]);
      }
    }
  }

  /** The row the profile save upserts. */
  datatype Profile = Profile(
    id: string, name: Answer, school: Answer, grade: Answer, gpa: Answer, sat: Answer,
    dreamSchools: seq<string>, interests: Answer, onboarded: bool)

  /** The ids of the seven steps, in order. */
  lemma StepIds()
    ensures Steps[0].id == "name" && Steps[1].id == "school" && Steps[2].id == "grade"
    ensures Steps[3].id == "gpa" && Steps[4].id == "sat" && Steps[5].id == "dream_schools"
    ensures Steps[6].id == "interests"
  {
  }

  /** The row built from the final answers for the user `userId`: each
      column holds the answer stored under the id of the same name, the dream
      schools as the trimmed comma pieces of their free-text answer. */
  function ProfileOf(userId: string, final: map<string, Answer>): (p: Profile)
    requires AnsweredUpTo(final, |Steps|)
    ensures p.id == userId && p.onboarded
    ensures var keys := ["name", "school", "grade", "gpa", "sat", "dream_schools", "interests"];
            forall k :: k in keys ==> k in final
    ensures "name" in final && p.name == final["name"] && p.school == final["school"]
    ensures p.grade == final["grade"] && p.gpa == final["gpa"] && p.sat == final["sat"]
    ensures final["dream_schools"].Single? && p.dreamSchools == DreamSchools(final["dream_schools"].text)
    ensures final["interests"].Multiple? && p.interests == final["interests"]
  {
    StepIds();
    Profile(userId,
      final[Steps[0].id], final[Steps[1].id], final[Steps[2].id], final[Steps[3].id], final[Steps[4].id],
      DreamSchools(final[Steps[5].id].text), final[Steps[6].id], true)
  }

  /** The page's state cells. */
  class Wizard {
    var step: int
    var answers: map<string, Answer>
    var currentAnswer: string
    var selectedChoices: seq<string>
    var saving: bool

    /** The step index stays within the seven steps, every earlier step has
        its answer stored, and saving only ever starts on the last step. */
    ghost predicate Valid()
      reads this
    {
      0 <= step <= LastStep && AnsweredUpTo(answers, step) && (saving ==> step == LastStep)
    }

    constructor ()
      ensures Valid()
      ensures step == 0 && answers == map[] && currentAnswer == [] && selectedChoices == [] && !saving
    {
      step, answers, currentAnswer, selectedChoices, saving := 0, map[], [], [], false;
    }

    /** Typing in the text input, or clicking a choice on a choice step. */
    method SetCurrentAnswer(a: string)
      requires Valid()
      modifies this`currentAnswer
      ensures Valid() && currentAnswer == a
    {
      currentAnswer := a;
    }

    /** Clicking a choice on the multi-choice step. */
    method ToggleChoice(c: string)
      requires Valid()
      modifies this`selectedChoices
      ensures Valid() && selectedChoices == ToggleMembership(old(selectedChoices), c)
    {
      selectedChoices := ToggleMembership(selectedChoices, c);
    }

    /** `handleNext`: store the answer under the current step's id; then move
        on and clear the inputs, or, on the last step, hand the answers to the
        save. `user` is the signed-in user's id, if any; `saved` is the row
        the save upserts, if it runs. */
    method HandleNext(user: Option<string>) returns (saved: Option<Profile>)
      requires Valid()
      modifies this
      ensures Valid()
      ensures answers == old(answers)[Steps[old(step)].id :=
                AnswerFor(Steps[old(step)].kind, old(currentAnswer), old(selectedChoices))]
      ensures old(step) < LastStep ==>
                step == old(step) + 1 && currentAnswer == [] && selectedChoices == [] &&
                saving == old(saving) && saved == None
      ensures old(step) == LastStep ==>
                step == old(step) && currentAnswer == old(currentAnswer) &&
                selectedChoices == old(selectedChoices) && AnsweredUpTo(answers, |Steps|) &&
                (user.None? ==> saving == old(saving) && saved == None) &&
                (user.Some? ==> saving && saved == Some(ProfileOf(user.value, answers)))
    {
      var current := Steps[step];
      var value := AnswerFor(current.kind, currentAnswer, selectedChoices);
      IdsDistinct();
      answers := answers[current.id := value];
      if step == LastStep {
        saved := HandleSave(answers, user);
      } else {
        step := step + 1;
        currentAnswer := [];
        selectedChoices := [];
        saved := None;
      }
    }

    /** `handleSave`: nothing without a user; otherwise mark the page as
        saving and build the profile row. */
    method HandleSave(final: map<string, Answer>, user: Option<string>) returns (saved: Option<Profile>)
      requires Valid() && step == LastStep && AnsweredUpTo(final, |Steps|)
      modifies this`saving
      ensures Valid()
      ensures user.None? ==> saving == old(saving) && saved == None
      ensures user.Some? ==> saving && saved == Some(ProfileOf(user.value, final))
    {
      if user.None? {
        return None;
      }
      saving := true;
      saved := Some(ProfileOf(user.value, final));
    }

    /** A key press in the text input: Enter with a non-empty answer acts as
        the Next button; any other key does nothing. */
    method PressKey(key: string, user: Option<string>) returns (saved: Option<Profile>)
      requires Valid()
      modifies this
      ensures Valid()
      ensures !KeySubmits(Steps[old(step)].kind, key, old(currentAnswer)) ==>
                unchanged(this) && saved == None
      ensures KeySubmits(Steps[old(step)].kind, key, old(currentAnswer)) ==>
                answers == old(answers)[Steps[old(step)].id := Single(old(currentAnswer))] &&
                step == old(step) + 1 && currentAnswer == [] && selectedChoices == [] &&
                saving == old(saving) && saved == None
    {
      if KeySubmits(Steps[step].kind, key, currentAnswer) {
        assert step != LastStep;
        saved := HandleNext(user);
      } else {
        saved := None;
      }
    }
  }
}
