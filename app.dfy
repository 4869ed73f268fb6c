/**
 * The root component's navigation: which learning path and which skill are
 * open. The dashboard shows when neither is, a path's page when only a path
 * is, and a skill's page whenever a skill is.
 */
module App {
  import opened Wrappers
  import opened Models

  /** The two navigation fields as one value. */
  datatype Nav = Nav(skill: Option<Skill>, path: Option<LearningPath>)

  const Home: Nav := Nav(None, None)

  /** What `onGoBack` does to the navigation: a skill is closed first, then a path. */
  function Back(n: Nav): (r: Nav)
    ensures n.skill.Some? ==> r == Nav(None, n.path)
    ensures n.skill.None? && n.path.Some? ==> r == Home
    ensures n == Home ==> r == Home
  {
    if n.skill.Some? then Nav(None, n.path)
    else if n.path.Some? then Nav(n.skill, None)
    else n
  }

  /** Going back twice from anywhere reaches the dashboard. */
  lemma BackTwiceHome(n: Nav)
    ensures Back(Back(n)) == Home
  {
  }

  /** Going back changes the navigation unless it is already at the dashboard. */
  lemma BackMoves(n: Nav)
    ensures Back(n) == n <==> n == Home
  {
  }

  class AppComponent {
    var selectedSkill: Option<Skill>
    var selectedLearningPath: Option<LearningPath>

    function State(): Nav
      reads this
    {
      Nav(selectedSkill, selectedLearningPath)
    }

    /** The app opens at the dashboard. */
    constructor ()
      ensures State() == Home
    {
      selectedSkill := None;
      selectedLearningPath := None;
    }

    /** `onPathSelected`: opens the path and closes any skill. */
    method OnPathSelected(path: LearningPath)
      modifies this
      ensures State() == Nav(None, Some(path))
    {
      selectedLearningPath := Some(path);
      selectedSkill := None;
    }

    /** `onSkillSelectedFromDashboard`: opens the skill with no path behind it. */
    method OnSkillSelectedFromDashboard(skill: Skill)
      modifies this
      ensures State() == Nav(Some(skill), None)
    {
      selectedLearningPath := None;
      selectedSkill := Some(skill);
    }

    /** `onSkillSelectedFromPath`: opens the skill and keeps the path, so that going back
        returns to it. */
    method OnSkillSelectedFromPath(skill: Skill)
      modifies this
      ensures State() == Nav(Some(skill), old(selectedLearningPath))
      ensures Back(State()) == Nav(None, old(selectedLearningPath))
    {
      selectedSkill := Some(skill);
    }

    /** `onGoBack`: closes the skill if one is open, else the path if one is open, else
        does nothing. */
    method OnGoBack()
      modifies this
      ensures State() == Back(old(State()))
    {
      if selectedSkill.Some? {
        selectedSkill := None;
      } else if selectedLearningPath.Some? {
        selectedLearningPath := None;
      }
    }

    /** `navigateHome`: closes both; calling it again changes nothing. */
    method NavigateHome()
      modifies this
      ensures State() == Home
    {
      selectedSkill := None;
      selectedLearningPath := None;
    }
  }

  /** Two presses of "back" from any state land on the dashboard. */
  method GoBackTwice(app: AppComponent)
    modifies app
    ensures app.State() == Home
  {
    app.OnGoBack();
    app.OnGoBack();
    BackTwiceHome(old(app.State()));
  }

  /** `navigateHome` is idempotent. */
  method NavigateHomeTwice(app: AppComponent)
    modifies app
    ensures app.State() == Home
    ensures Back(app.State()) == app.State()
  {
    app.NavigateHome();
    ghost var once := app.State();
    app.NavigateHome();
    assert app.State() == once;
  }
}
