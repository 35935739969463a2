/** Which submitted WorkPlans are accepted, in the texts of their fields. */
module PlanDocuments {
  import opened Wrappers
  import opened Strings
  import opened Trimming
  import opened WorkPlans

  // ------------------------------------------------------------------ lengths

  /** The positions of the characters from `c` on. */
  ghost function From(s: string, c: char): set<nat> {
    set k: nat | k < |s| && s[k] >= c
  }

  /** One byte for each character, and one more from each of three boundaries on. */
  ghost function EncodedLength(s: string): nat {
    |s| + |From(s, '\U{0080}')| + |From(s, '\U{0800}')| + |From(s, '\U{10000}')|
  }

  lemma OneMoreFrom(s: string, c: char)
    requires s != ""
    ensures |From(s, c)| == |From(s[1..], c)| + if s[0] >= c then 1 else 0
  {
    var rest := From(s[1..], c);
    var moved := set k | k in rest :: k + 1;
    SameSize(rest, moved);
    assert forall k: nat | 0 < k < |s| :: s[k] == s[1..][k - 1];
    forall k: nat
      ensures k in From(s, c) <==> k in moved || (k == 0 && s[0] >= c)
    {
      if k > 0 && k in From(s, c) {
        assert k - 1 in rest;
      }
    }
    if s[0] >= c {
      assert From(s, c) == moved + {0};
    } else {
      assert From(s, c) == moved;
    }
  }

  lemma {:induction false} SameSize(a: set<nat>, moved: set<nat>)
    requires moved == set k | k in a :: k + 1
    ensures |moved| == |a|
    decreases |a|
  {
    if a != {} {
      var k :| k in a;
      var rest := set j | j in a - {k} :: j + 1;
      forall x
        ensures x in moved <==> x in rest || x == k + 1
      {
        if x in moved {
          var j :| j in a && j + 1 == x;
          assert j != k ==> j in a - {k};
        }
      }
      assert moved == rest + {k + 1};
      SameSize(a - {k}, rest);
    }
  }

  lemma {:induction false} BytesAre(s: string)
    ensures Bytes(s) == EncodedLength(s)
    decreases |s|
  {
    if s == "" {
      assert From(s, '\U{0080}') == {} && From(s, '\U{0800}') == {} && From(s, '\U{10000}') == {};
    } else {
      BytesAre(s[1..]);
      OneMoreFrom(s, '\U{0080}');
      OneMoreFrom(s, '\U{0800}');
      OneMoreFrom(s, '\U{10000}');
    }
  }

  // ------------------------------------------------------------------ fields

  ghost predicate Says(value: Json, key: string, text: string) {
    value.Object? && key in value.fields && value.fields[key] == Text(text)
  }

  /** The field is a text of which this is left without the spaces at its ends. */
  ghost predicate Holds(value: Json, key: string, r: string) {
    r != "" && exists text :: Says(value, key, text) && Trimmed(text, r)
  }

  ghost predicate HasTitle(step: Json) {
    (exists r :: Holds(step, "title", r)) && exists r :: Holds(step, "description", r)
  }

  ghost predicate Short(value: Json, key: string, limit: nat, r: string) {
    Holds(value, key, r) && EncodedLength(r) <= limit
  }

  /** The i-th acceptance name of a step. */
  ghost predicate NamesAt(step: Json, i: nat, name: string) {
    && name != "" && step.Object? && "acceptance_names" in step.fields && step.fields["acceptance_names"].List?
    && i < |step.fields["acceptance_names"].items| && step.fields["acceptance_names"].items[i].Text?
    && Trimmed(step.fields["acceptance_names"].items[i].text, name)
  }

  ghost predicate NamedAt(step: Json, i: nat, selected: set<string>) {
    exists name :: NamesAt(step, i, name) && name in selected
  }

  /** At most fifty names, each of them a selected command, and none of them twice. */
  ghost predicate NamesProperly(step: Json, selected: set<string>) {
    && step.Object?
    && ("acceptance_names" in step.fields ==>
          && step.fields["acceptance_names"].List? && |step.fields["acceptance_names"].items| <= 50
          && (forall i: nat | i < |step.fields["acceptance_names"].items| :: NamedAt(step, i, selected))
          && forall i: nat, j: nat, name | NamesAt(step, i, name) && NamesAt(step, j, name) :: i == j)
  }

  /**
    One to fifty steps with a title and a description, whose names are proper and together are the selection,
    under a summary of at most 4000 bytes.
   */
  ghost predicate ProperPlan(document: Json, selected: set<string>) {
    && document.Object? && (exists r :: Short(document, "summary", 4000, r))
    && "steps" in document.fields && document.fields["steps"].List?
    && ProperSteps(document.fields["steps"].items, selected)
  }

  ghost predicate ProperSteps(steps: seq<Json>, selected: set<string>) {
    && 1 <= |steps| <= 50
    && (forall k | 0 <= k < |steps| :: HasTitle(steps[k]) && NamesProperly(steps[k], selected))
    && forall name | name in selected :: exists k: nat, i: nat :: k < |steps| && NamesAt(steps[k], i, name)
  }

  lemma TrimmedIs(s: string)
    ensures forall r :: Trimmed(s, r) <==> r == Trim(s)
  {
    TrimIs(s);
    hide Trimmed, Trim;
    forall r | Trimmed(s, r)
      ensures r == Trim(s)
    {
      TrimmedOnce(s, r, Trim(s));
    }
  }

  lemma HoldsIs(value: Json, key: string)
    requires value.Object?
    ensures Given(value.fields, key) <==> exists r :: Holds(value, key, r)
    ensures forall r | Holds(value, key, r) ::
              TextAt(value.fields, key).Some? && r == Trim(TextAt(value.fields, key).value)
    ensures Given(value.fields, key) ==> Holds(value, key, Trim(TextAt(value.fields, key).value))
  {
    if key in value.fields && value.fields[key].Text? {
      var text := value.fields[key].text;
      TrimmedIs(text);
      assert Says(value, key, text);
      assert forall other | Says(value, key, other) :: other == text;
      assert Holds(value, key, Trim(text)) <==> Trim(text) != "";
    }
    hide Trimmed, Trim;
  }

  lemma TitledIs(step: Json)
    ensures Titled(step) <==> HasTitle(step)
  {
    if step.Object? {
      HoldsIs(step, "title");
      HoldsIs(step, "description");
    }
    hide Given;
  }

  lemma BoundedIs(value: Json, key: string, limit: nat)
    requires value.Object?
    ensures Bounded(value.fields, key, limit) <==> exists r :: Short(value, key, limit, r)
    ensures forall r | Short(value, key, limit, r) ::
              TextAt(value.fields, key).Some? && r == Trim(TextAt(value.fields, key).value)
  {
    HoldsIs(value, key);
    if TextAt(value.fields, key).Some? {
      var r := Trim(TextAt(value.fields, key).value);
      BytesAre(r);
      assert Short(value, key, limit, r) <==> Holds(value, key, r) && Bytes(r) <= limit;
    }
    hide Given, Holds, Trim, Bytes, EncodedLength;
  }

  lemma NameIs(step: Json, i: nat, name: string)
    ensures NamesAt(step, i, name) <==> i < |Names(step)| && name != "" && NameOf(Names(step)[i]) == name
  {
    if i < |Names(step)| && Names(step)[i].Text? {
      TrimmedIs(Names(step)[i].text);
    }
    hide Trimmed, Trim;
  }

  lemma NamesWellIs(step: Json, selected: set<string>)
    ensures NamesWell(step, selected) <==> NamesProperly(step, selected)
  {
    var names := Names(step);
    forall i: nat
      ensures forall name :: NamesAt(step, i, name) <==> i < |names| && name != "" && NameOf(names[i]) == name
      ensures i < |names| ==>
                (NamedAt(step, i, selected) <==> NameOf(names[i]) != "" && NameOf(names[i]) in selected)
    {
      forall name
        ensures NamesAt(step, i, name) <==> i < |names| && name != "" && NameOf(names[i]) == name
      {
        NameIs(step, i, name);
      }
      hide NamesAt, NameOf;
    }
    hide NamesAt, NameOf, NamedAt;
    if NamesWell(step, selected) {
      forall i: nat, j: nat, name | NamesAt(step, i, name) && NamesAt(step, j, name)
        ensures i == j
      {
        assert NameOf(names[i]) == NameOf(names[j]);
      }
    }
    if NamesProperly(step, selected) {
      forall i: nat, j: nat | i < j < |names|
        ensures NameOf(names[i]) != NameOf(names[j])
      {
        assert NamedAt(step, i, selected);
        assert NamesAt(step, i, NameOf(names[i])) && !NamesAt(step, j, NameOf(names[i]));
      }
    }
  }

  lemma CoveredIs(steps: seq<Json>, name: string)
    requires name != ""
    ensures name in Covered(steps) <==> exists k: nat, i: nat :: k < |steps| && NamesAt(steps[k], i, name)
  {
    CoveredHas(steps, name);
    hide NameOf, NamesAt, Covered, Names;
    if name in Covered(steps) {
      var step, n :| step in steps && n in Names(step) && NameOf(n) == name;
      var k: nat :| k < |steps| && steps[k] == step;
      var i: nat :| i < |Names(step)| && Names(step)[i] == n;
      NameIs(steps[k], i, name);
    }
    if k: nat, i: nat :| k < |steps| && NamesAt(steps[k], i, name) {
      NameIs(steps[k], i, name);
      assert steps[k] in steps && Names(steps[k])[i] in Names(steps[k]);
    }
  }

  lemma EachStep(steps: seq<Json>, selected: set<string>)
    ensures (forall step | step in steps :: Titled(step) && NamesWell(step, selected)) <==>
              forall k | 0 <= k < |steps| :: HasTitle(steps[k]) && NamesProperly(steps[k], selected)
  {
    forall step: Json
      ensures Titled(step) && NamesWell(step, selected) <==> HasTitle(step) && NamesProperly(step, selected)
    {
      TitledIs(step);
      NamesWellIs(step, selected);
    }
    hide Titled, HasTitle, NamesProperly, NamesWell;
    assert forall k | 0 <= k < |steps| :: steps[k] in steps;
  }

  lemma StepsAre(steps: seq<Json>, selected: set<string>)
    requires 1 <= |steps| <= 50
    ensures SoundSteps(steps, selected) <==> ProperSteps(steps, selected)
  {
    EachStep(steps, selected);
    hide Titled, HasTitle, NamesProperly, NamesAt, NamesWell, Covered;
    if forall step | step in steps :: Titled(step) && NamesWell(step, selected) {
      assert forall k | 0 <= k < |steps| :: steps[k] in steps;
      CoverageIs(steps, selected);
    }
  }

  lemma CoverageIs(steps: seq<Json>, selected: set<string>)
    requires forall k | 0 <= k < |steps| :: NamesWell(steps[k], selected)
    ensures Covered(steps) == selected <==>
              forall name | name in selected :: exists k: nat, i: nat :: k < |steps| && NamesAt(steps[k], i, name)
  {
    CoveredAllowed(steps, selected);
    NoneEmpty(steps, selected);
    CoveredHas(steps, "");
    EmptyUnnamed(steps);
    forall name | name != ""
      ensures name in Covered(steps) <==> exists k: nat, i: nat :: k < |steps| && NamesAt(steps[k], i, name)
    {
      CoveredIs(steps, name);
    }
    hide NamesWell, NamesAt, Covered, NameOf, Names;
  }

  lemma NoneEmpty(steps: seq<Json>, selected: set<string>)
    requires forall k | 0 <= k < |steps| :: NamesWell(steps[k], selected)
    ensures forall step, n | step in steps && n in Names(step) :: NameOf(n) != ""
  {
    hide NameOf, Names;
    forall step, n | step in steps && n in Names(step)
      ensures NameOf(n) != ""
    {
      var k :| 0 <= k < |steps| && steps[k] == step;
      assert NamesWell(steps[k], selected) && DeclaredOnce(Names(step), selected);
    }
  }

  lemma EmptyUnnamed(steps: seq<Json>)
    ensures forall k: nat, i: nat | k < |steps| :: !NamesAt(steps[k], i, "")
  {
  }

  /** The checks accept exactly the proper plans. */
  lemma PlanIs(document: Json, selected: set<string>)
    ensures Sound(document, selected) <==> ProperPlan(document, selected)
  {
    if document.Object? {
      BoundedIs(document, "summary", 4000);
      if "steps" in document.fields && document.fields["steps"].List? {
        var steps := document.fields["steps"].items;
        if 1 <= |steps| <= 50 {
          StepsAre(steps, selected);
        }
      }
    }
    hide Bounded, Short, SoundSteps, HasTitle, NamesProperly, NamesAt;
  }

  /** What is taken over from a plan: the trimmed texts, and defaults for a title or a risk that is not there. */
  lemma ReadingIs(document: Json)
    requires document.Object? && Bounded(document.fields, "summary", 4000)
    ensures Short(document, "summary", 4000, Trim(TextAt(document.fields, "summary").value))
    ensures forall r | Short(document, "title", 200, r) :: TitleOf(document.fields) == r
    ensures (forall r :: !Short(document, "title", 200, r)) ==> TitleOf(document.fields) == "Repo Mode WorkPlan"
    ensures forall risk | Says(document, "risk_level", risk) && risk in {"low", "medium", "high"} ::
              RiskOf(document.fields) == risk
    ensures (forall risk | risk in {"low", "medium", "high"} :: !Says(document, "risk_level", risk)) ==>
              RiskOf(document.fields) == "medium"
  {
    BoundedIs(document, "summary", 4000);
    BoundedIs(document, "title", 200);
    RiskIs(document);
    hide Bounded, Short, Says, RiskOf, Trim;
  }

  lemma RiskIs(document: Json)
    requires document.Object?
    ensures forall risk | Says(document, "risk_level", risk) && risk in {"low", "medium", "high"} ::
              RiskOf(document.fields) == risk
    ensures (forall risk | risk in {"low", "medium", "high"} :: !Says(document, "risk_level", risk)) ==>
              RiskOf(document.fields) == "medium"
  {
    if "risk_level" in document.fields && document.fields["risk_level"].Text? {
      var risk := document.fields["risk_level"].text;
      assert Says(document, "risk_level", risk);
      assert risk in ["low", "medium", "high"] <==> risk in {"low", "medium", "high"};
    }
  }
}
