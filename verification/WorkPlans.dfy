/** Validation of a submitted WorkPlan against the selected acceptance commands. */
module WorkPlans {
  import opened Wrappers
  import opened Strings

  /** A JSON value as far as validation looks into it. */
  datatype Json = Text(text: string) | List(items: seq<Json>) | Object(fields: map<string, Json>) | Scalar

  datatype Problem =
    | NotAnObject | BadSummary | BadSteps | BadStep | BadNames | BadName
    | Undeclared(name: string) | Repeated(name: string) | Uncovered

  datatype Validation = Accepted(title: string, summary: string, risk: string) | Refused(problem: Problem)

  /** The length of the encoded text, in bytes. */
  function Bytes(s: string): nat {
    if s == "" then 0
    else
      Bytes(s[1..])
      + if s[0] < '\U{0080}' then 1 else if s[0] < '\U{0800}' then 2 else if s[0] < '\U{10000}' then 3 else 4
  }

  function TextAt(fields: map<string, Json>, key: string): Option<string> {
    if key in fields && fields[key].Text? then Some(fields[key].text) else None
  }

  predicate Given(fields: map<string, Json>, key: string) {
    TextAt(fields, key).Some? && Trim(TextAt(fields, key).value) != ""
  }

  predicate Titled(step: Json) {
    step.Object? && Given(step.fields, "title") && Given(step.fields, "description")
  }

  predicate Bounded(fields: map<string, Json>, key: string, limit: nat) {
    Given(fields, key) && Bytes(Trim(TextAt(fields, key).value)) <= limit
  }

  /** The acceptance names of a step as written; a step without any names none. */
  function Names(step: Json): seq<Json> {
    if step.Object? && "acceptance_names" in step.fields && step.fields["acceptance_names"].List?
    then step.fields["acceptance_names"].items else []
  }

  function NameOf(name: Json): string {
    if name.Text? then Trim(name.text) else ""
  }

  // ------------------------------------------------------------------ what an accepted plan is

  /** A step names declared commands only, each at most once. */
  ghost predicate NamesWell(step: Json, selected: set<string>) {
    && step.Object?
    && ("acceptance_names" in step.fields ==>
          step.fields["acceptance_names"].List? && |step.fields["acceptance_names"].items| <= 50)
    && DeclaredOnce(Names(step), selected)
  }

  ghost predicate DeclaredOnce(names: seq<Json>, selected: set<string>) {
    && (forall i | 0 <= i < |names| :: NameOf(names[i]) != "" && NameOf(names[i]) in selected)
    && (forall i, j | 0 <= i < j < |names| :: NameOf(names[i]) != NameOf(names[j]))
  }

  function NameSet(names: seq<Json>): set<string> {
    set name | name in names :: NameOf(name)
  }

  function Covered(steps: seq<Json>): set<string> {
    if steps == [] then {} else Covered(steps[..|steps| - 1]) + NameSet(Names(steps[|steps| - 1]))
  }

  ghost predicate Sound(document: Json, selected: set<string>) {
    && document.Object? && Bounded(document.fields, "summary", 4000)
    && "steps" in document.fields && document.fields["steps"].List?
    && 1 <= |document.fields["steps"].items| <= 50
    && SoundSteps(document.fields["steps"].items, selected)
  }

  ghost predicate SoundSteps(steps: seq<Json>, selected: set<string>) {
    && (forall step | step in steps :: Titled(step) && NamesWell(step, selected))
    && Covered(steps) == selected
  }

  function TitleOf(fields: map<string, Json>): (title: string)
    ensures title != ""
  {
    if Bounded(fields, "title", 200) then Trim(TextAt(fields, "title").value) else "Repo Mode WorkPlan"
  }

  function RiskOf(fields: map<string, Json>): (risk: string)
    ensures risk in ["low", "medium", "high"]
  {
    if "risk_level" in fields && fields["risk_level"].Text? && fields["risk_level"].text in ["low", "medium", "high"]
    then fields["risk_level"].text else "medium"
  }

  // ------------------------------------------------------------------ the check

  lemma OneMoreName(names: seq<Json>, i: nat, selected: set<string>)
    requires i < |names| && DeclaredOnce(names[..i], selected)
    ensures NameSet(names[..i + 1]) == NameSet(names[..i]) + {NameOf(names[i])}
    ensures var name := NameOf(names[i]);
            DeclaredOnce(names[..i + 1], selected) <==> name != "" && name in selected && name !in NameSet(names[..i])
    ensures !DeclaredOnce(names[..i + 1], selected) ==> !DeclaredOnce(names, selected)
  {
    hide NameOf;
    var before, more, name := names[..i], names[..i + 1], NameOf(names[i]);
    assert more == before + [names[i]];
    if name in NameSet(before) {
      var earlier :| earlier in before && NameOf(earlier) == name;
      var k :| 0 <= k < i && before[k] == earlier;
      assert NameOf(more[k]) == NameOf(more[i]);
    } else {
      forall k | 0 <= k < i
        ensures NameOf(more[k]) != name
      {
        assert more[k] in before;
      }
    }
    if DeclaredOnce(names, selected) {
      assert forall k | 0 <= k <= i :: more[k] == names[k];
    }
  }

  /** One step's names, collected one after the other. */
  method CheckNames(names: seq<Json>, selected: set<string>, covered: set<string>)
    returns (problem: Option<Problem>, found: set<string>)
    ensures problem.None? <==> DeclaredOnce(names, selected)
    ensures problem.None? ==> found == covered + NameSet(names)
  {
    hide NameOf, NameSet, DeclaredOnce;
    var stepNames: set<string> := {};
    problem, found := None, covered;
    NoNames(names, selected);
    for i := 0 to |names|
      invariant problem.None? && DeclaredOnce(names[..i], selected)
      invariant stepNames == NameSet(names[..i]) && found == covered + stepNames
    {
      OneMoreName(names, i, selected);
      var name := NameOf(names[i]);
      if name == "" {
        problem := Some(BadName);
        return;
      }
      if name !in selected {
        problem := Some(Undeclared(name));
        return;
      }
      if name in stepNames {
        problem := Some(Repeated(name));
        return;
      }
      stepNames := stepNames + {name};
      found := found + {name};
    }
    assert names[..|names|] == names;
  }

  lemma NoNames(names: seq<Json>, selected: set<string>)
    ensures DeclaredOnce(names[..0], selected) && NameSet(names[..0]) == {}
  {
  }

  method AllTitled(steps: seq<Json>) returns (yes: bool)
    ensures yes <==> forall step | step in steps :: Titled(step)
  {
    hide Titled;
    for i := 0 to |steps|
      invariant forall k | 0 <= k < i :: Titled(steps[k])
    {
      if !Titled(steps[i]) {
        return false;
      }
    }
    yes := true;
  }

  /** All steps' names, each step bounded and without repetition. */
  method CheckSteps(steps: seq<Json>, selected: set<string>) returns (problem: Option<Problem>, covered: set<string>)
    ensures problem.None? <==> forall k | 0 <= k < |steps| :: NamesWell(steps[k], selected)
    ensures problem.None? ==> covered == Covered(steps)
  {
    hide DeclaredOnce, NameSet, NameOf;
    problem, covered := None, {};
    for i := 0 to |steps|
      invariant problem.None? && covered == Covered(steps[..i])
      invariant forall k | 0 <= k < i :: NamesWell(steps[k], selected)
    {
      assert steps[..i + 1][..i] == steps[..i];
      var step := steps[i];
      if !step.Object? {
        problem := Some(BadStep);
        return;
      }
      if "acceptance_names" in step.fields {
        var names := step.fields["acceptance_names"];
        if !names.List? || |names.items| > 50 {
          problem := Some(BadNames);
          return;
        }
        problem, covered := CheckNames(names.items, selected, covered);
        if problem.Some? {
          return;
        }
      } else {
        NoNames([], selected);
      }
    }
    assert steps[..|steps|] == steps;
  }

  method CheckPlanSteps(steps: seq<Json>, selected: set<string>) returns (problem: Option<Problem>)
    ensures problem.None? <==> SoundSteps(steps, selected)
  {
    hide Titled, NamesWell, Covered;
    var titled := AllTitled(steps);
    if !titled {
      return Some(BadStep);
    }
    var covered;
    problem, covered := CheckSteps(steps, selected);
    assert forall k | 0 <= k < |steps| :: steps[k] in steps;
    if problem.Some? {
      return;
    }
    CoveredAllowed(steps, selected);
    if !(selected <= covered) {
      return Some(Uncovered);
    }
    assert covered == selected;
  }

  /**
    Accepts exactly the plans of one to fifty titled steps whose acceptance names are declared, not
    repeated within a step, and together are all of the selected commands.
   */
  method ValidateWorkPlan(document: Json, selected: seq<string>) returns (r: Validation)
    ensures r.Accepted? <==> Sound(document, set name | name in selected)
    ensures r.Accepted? ==>
              document.Object?
              && var summary := Trim(TextAt(document.fields, "summary").value);
                 r == Accepted(TitleOf(document.fields), summary, RiskOf(document.fields))
  {
    hide SoundSteps, Trim, TitleOf, RiskOf, Bytes;
    if !document.Object? {
      return Refused(NotAnObject);
    }
    var fields := document.fields;
    if !Bounded(fields, "summary", 4000) {
      return Refused(BadSummary);
    }
    if "steps" !in fields || !fields["steps"].List? || !(1 <= |fields["steps"].items| <= 50) {
      return Refused(BadSteps);
    }
    var problem := CheckPlanSteps(fields["steps"].items, set name | name in selected);
    if problem.Some? {
      return Refused(problem.value);
    }
    r := Accepted(TitleOf(fields), Trim(TextAt(fields, "summary").value), RiskOf(fields));
  }

  lemma {:induction false} CoveredAllowed(steps: seq<Json>, selected: set<string>)
    requires forall k | 0 <= k < |steps| :: NamesWell(steps[k], selected)
    ensures Covered(steps) <= selected
    decreases |steps|
  {
    hide NameOf;
    if steps != [] {
      CoveredAllowed(steps[..|steps| - 1], selected);
      assert NamesWell(steps[|steps| - 1], selected);
    }
  }

  lemma {:induction false} CoveredHas(steps: seq<Json>, name: string)
    ensures name in Covered(steps) <==> exists step, n :: step in steps && n in Names(step) && NameOf(n) == name
    decreases |steps|
  {
    hide NameOf, Names;
    if steps != [] {
      var front, last := steps[..|steps| - 1], steps[|steps| - 1];
      CoveredHas(front, name);
      assert steps == front + [last];
    }
  }

  /** In an accepted plan every selected command is named by some step, and nothing else is. */
  lemma AcceptedCoversTheSelection(document: Json, selected: set<string>, name: string)
    requires Sound(document, selected)
    ensures name in selected <==>
            exists step, n :: step in document.fields["steps"].items && n in Names(step) && NameOf(n) == name
  {
    CoveredHas(document.fields["steps"].items, name);
    hide NameOf, Names, Titled, NamesWell, Covered;
  }
}
