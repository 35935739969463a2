/** The rendered admission policy over whole histories of requests and of the approved list. */
module ImageAdmission {
  import opened Wrappers
  import opened ImageReference
  import opened ImageGrammar
  import opened ImageEvidence
  import opened ImageRecord

  datatype Container = Container(image: Option<string>)

  datatype PodSpec = PodSpec(
    containers: Option<seq<Container>>,
    initContainers: Option<seq<Container>>,
    ephemeralContainers: Option<seq<Container>>)

  /** An object of a covered kind; which of the places its Pod specification is in depends on the kind. */
  datatype Object = Object(kind: string, spec: Option<PodSpec>, jobTemplate: Option<PodSpec>, template: Option<PodSpec>)

  // ------------------------------------------------------------------ the policy's variables

  function PodSpecOf(o: Object): Option<PodSpec> {
    if o.kind == "Pod" then o.spec else if o.kind == "CronJob" then o.jobTemplate else o.template
  }

  function ImagesIn(containers: Option<seq<Container>>): (images: seq<string>)
    ensures containers.None? ==> images == []
    ensures containers.Some? ==> |images| == |containers.value|
  {
    if containers.None? then []
    else
      seq(|containers.value|, i requires 0 <= i < |containers.value| =>
        var c := containers.value[i]; if c.image.Some? then c.image.value else "")
  }

  function Images(spec: PodSpec): seq<string> {
    ImagesIn(spec.containers) + ImagesIn(spec.initContainers) + ImagesIn(spec.ephemeralContainers)
  }

  function Without(images: seq<string>, previous: seq<string>): seq<string> {
    if images == [] then []
    else Without(images[..|images| - 1], previous)
         + if images[|images| - 1] in previous then [] else [images[|images| - 1]]
  }

  /** An expression that cannot be evaluated denies the request, as the failure policy says. */
  function NewImages(o: Object, previous: Option<Object>): Option<seq<string>> {
    if PodSpecOf(o).None? then None
    else if previous.None? then Some(Without(Images(PodSpecOf(o).value), []))
    else if PodSpecOf(previous.value).None? then None
    else Some(Without(Images(PodSpecOf(o).value), Images(PodSpecOf(previous.value).value)))
  }

  /** Both validations of the policy. */
  predicate Admits(allowed: set<string>, o: Object, previous: Option<Object>) {
    var images := NewImages(o, previous);
    && images.Some?
    && (forall i | i in images.value :: Immutable(i))
    && (forall i | i in images.value :: i in allowed)
  }

  // ------------------------------------------------------------------ what an object holds

  /** The Pod specification, in the place that the object's kind has for it. */
  ghost predicate HasPodSpec(o: Object, spec: PodSpec) {
    || (o.kind == "Pod" && o.spec == Some(spec))
    || (o.kind == "CronJob" && o.jobTemplate == Some(spec))
    || (o.kind != "Pod" && o.kind != "CronJob" && o.template == Some(spec))
  }

  /** A container without an image counts as one with the empty text. */
  ghost predicate Names(c: Container, image: string) {
    c.image == Some(image) || (c.image.None? && image == "")
  }

  ghost predicate Lists(containers: Option<seq<Container>>, image: string) {
    containers.Some? && exists i :: 0 <= i < |containers.value| && Names(containers.value[i], image)
  }

  /** One of the containers, init containers or ephemeral containers has this image. */
  ghost predicate SpecHolds(spec: PodSpec, image: string) {
    Lists(spec.containers, image) || Lists(spec.initContainers, image) || Lists(spec.ephemeralContainers, image)
  }

  ghost predicate Specified(o: Object) {
    exists spec :: HasPodSpec(o, spec)
  }

  ghost predicate Holds(o: Option<Object>, image: string) {
    exists spec :: o.Some? && HasPodSpec(o.value, spec) && SpecHolds(spec, image)
  }

  lemma ImagesInIs(containers: Option<seq<Container>>, image: string)
    ensures image in ImagesIn(containers) <==> Lists(containers, image)
  {
    if containers.Some? {
      var images := ImagesIn(containers);
      assert forall i | 0 <= i < |images| :: images[i] == image <==> Names(containers.value[i], image);
    }
  }

  lemma HoldsIs(o: Object, image: string)
    ensures Specified(o) <==> PodSpecOf(o).Some?
    ensures Holds(Some(o), image) <==> PodSpecOf(o).Some? && image in Images(PodSpecOf(o).value)
  {
    if PodSpecOf(o).Some? {
      var spec := PodSpecOf(o).value;
      assert HasPodSpec(o, spec) && forall other | HasPodSpec(o, other) :: other == spec;
      ImagesInIs(spec.containers, image);
      ImagesInIs(spec.initContainers, image);
      ImagesInIs(spec.ephemeralContainers, image);
    }
    hide Lists, ImagesIn;
  }

  // ------------------------------------------------------------------ one request

  lemma {:induction false} WithoutHas(images: seq<string>, previous: seq<string>, i: string)
    ensures i in Without(images, previous) <==> i in images && i !in previous
    decreases |images|
  {
    if images != [] {
      WithoutHas(images[..|images| - 1], previous, i);
      assert images == images[..|images| - 1] + [images[|images| - 1]];
    }
  }

  lemma NewImagesAre(o: Object, previous: Option<Object>)
    ensures NewImages(o, previous).Some? <==> Specified(o) && (previous.Some? ==> Specified(previous.value))
    ensures NewImages(o, previous).Some? ==>
              forall i :: i in NewImages(o, previous).value <==> Holds(Some(o), i) && !Holds(previous, i)
  {
    hide Images, Without, PodSpecOf, Specified, Holds, HasPodSpec;
    HoldsIs(o, "");
    if previous.Some? {
      HoldsIs(previous.value, "");
    }
    NothingHeld();
    if NewImages(o, previous).Some? {
      forall i
        ensures i in NewImages(o, previous).value <==> Holds(Some(o), i) && !Holds(previous, i)
      {
        var kept := if previous.Some? then Images(PodSpecOf(previous.value).value) else [];
        WithoutHas(Images(PodSpecOf(o).value), kept, i);
        HoldsIs(o, i);
        if previous.Some? {
          HoldsIs(previous.value, i);
        }
      }
    }
  }

  lemma NothingHeld()
    ensures forall i :: !Holds(None, i)
  {
  }

  /**
    A request is admitted exactly when the object, and the stored one if there is one, has a Pod
    specification, and every image it adds is an immutable reference and on the list.
   */
  lemma AdmitsExactly(allowed: set<string>, o: Object, previous: Option<Object>)
    ensures Admits(allowed, o, previous) <==>
            && Specified(o) && (previous.Some? ==> Specified(previous.value))
            && forall i | Holds(Some(o), i) && !Holds(previous, i) :: ReferenceText(i) && i in allowed
  {
    NewImagesAre(o, previous);
    hide Immutable, NewImages, Specified, Holds, ReferenceText;
    forall i: string
      ensures Immutable(i) <==> ReferenceText(i)
    {
      ImmutableIs(i);
    }
  }

  // ------------------------------------------------------------------ whole histories

  datatype Event =
    | Publish(images: seq<Evidence>)
    | Request(name: string, submitted: Object)
    | Delete(name: string)

  datatype Cluster = Cluster(allowed: set<string>, workloads: map<string, Object>)

  function Stored(c: Cluster, name: string): Option<Object> {
    if name in c.workloads then Some(c.workloads[name]) else None
  }

  /** A policy is rendered only when every approved image is an immutable reference. */
  function Next(c: Cluster, e: Event): Cluster {
    match e
    case Publish(images) =>
      if forall i | i in Allowlist(images) :: ParseImage(i).Some? then c.(allowed := Allowlist(images)) else c
    case Request(name, submitted) =>
      if Admits(c.allowed, submitted, Stored(c, name)) then c.(workloads := c.workloads[name := submitted]) else c
    case Delete(name) => c.(workloads := c.workloads - {name})
  }

  /** The cluster after some events; it starts empty, with nothing approved. */
  function After(events: seq<Event>): Cluster {
    if events == [] then Cluster({}, map[]) else Next(After(events[..|events| - 1]), events[|events| - 1])
  }

  // ------------------------------------------------------------------ the list in force

  ghost predicate Approves(e: Event, image: string) {
    e.Publish? && exists j :: 0 <= j < |e.images| && e.images[j].status == Approved && e.images[j].image == image
  }

  ghost predicate Readable(image: string) {
    exists repository, hex :: Reads(image, repository, hex)
  }

  /** A publication of evidence whose approved images can all be read: a policy is rendered from it. */
  ghost predicate Renders(e: Event) {
    e.Publish? && forall image | Approves(e, image) :: Readable(image)
  }

  ghost predicate LastRendered(events: seq<Event>, p: nat) {
    p < |events| && Renders(events[p]) && forall m | p < m < |events| :: !Renders(events[m])
  }

  /** The last rendered publication approves the image. */
  ghost predicate InForce(events: seq<Event>, image: string) {
    exists p: nat :: LastRendered(events, p) && Approves(events[p], image)
  }

  lemma AllowlistIs(images: seq<Evidence>, image: string)
    ensures image in Allowlist(images) <==> Approves(Publish(images), image)
  {
    if image in Allowlist(images) {
      var e :| e in images && e.status == Approved && e.image == image;
      var j :| 0 <= j < |images| && images[j] == e;
    }
    if Approves(Publish(images), image) {
      var j :| 0 <= j < |images| && images[j].status == Approved && images[j].image == image;
      assert images[j] in images;
    }
  }

  lemma RendersIs(images: seq<Evidence>)
    ensures Renders(Publish(images)) <==> forall i | i in Allowlist(images) :: ParseImage(i).Some?
  {
    hide Allowlist, ParseImage, Approves, Reads;
    forall image
      ensures image in Allowlist(images) <==> Approves(Publish(images), image)
      ensures ParseImage(image).Some? <==> Readable(image)
    {
      AllowlistIs(images, image);
      ParsedIs(image);
    }
    hide Readable;
  }

  /** What may be added at any time is what the last rendered publication approves. */
  lemma {:induction false} AllowedIsInForce(events: seq<Event>, image: string)
    ensures image in After(events).allowed <==> InForce(events, image)
    decreases |events|
  {
    hide Renders, Approves, Admits, Allowlist;
    if events != [] {
      var front, last := events[..|events| - 1], events[|events| - 1];
      AllowedIsInForce(front, image);
      if last.Publish? {
        RendersIs(last.images);
        AllowlistIs(last.images, image);
      } else {
        NotPublished(last);
      }
      InForceMoves(events, image);
    }
  }

  lemma InForceMoves(events: seq<Event>, image: string)
    requires events != []
    ensures var front, last := events[..|events| - 1], events[|events| - 1];
            InForce(events, image) <==> if Renders(last) then Approves(last, image) else InForce(front, image)
  {
    hide Renders, Approves;
    var front, last := events[..|events| - 1], events[|events| - 1];
    if Renders(last) {
      assert LastRendered(events, |front|);
      assert forall p: nat | LastRendered(events, p) :: p == |front|;
    } else {
      forall p: nat
        ensures LastRendered(events, p) <==> LastRendered(front, p)
      {
      }
      assert forall p: nat | LastRendered(events, p) :: p < |front| && events[p] == front[p];
      hide LastRendered;
    }
  }

  lemma NotPublished(e: Event)
    requires !e.Publish?
    ensures !Renders(e)
  {
  }

  // ------------------------------------------------------------------ what is stored

  /** The k-th event submits an object that the policy in force lets into the workload's place. */
  ghost predicate Stores(events: seq<Event>, k: nat, name: string, o: Object) {
    && k < |events| && events[k] == Request(name, o) && Specified(o)
    && (name in After(events[..k]).workloads ==> Specified(After(events[..k]).workloads[name]))
    && forall i | Holds(Some(o), i) && !Holds(Stored(After(events[..k]), name), i) ::
         ReferenceText(i) && InForce(events[..k], i)
  }

  /** The event deletes the workload or puts another object in its place. */
  ghost predicate Ends(events: seq<Event>, m: nat, name: string)
    requires m < |events|
  {
    events[m] == Delete(name) || exists o :: Stores(events, m, name, o)
  }

  /** Nothing has replaced or deleted the workload since the k-th event. */
  ghost predicate Untouched(events: seq<Event>, k: nat, name: string) {
    forall m: nat | k < m < |events| :: !Ends(events, m, name)
  }

  ghost predicate Stands(events: seq<Event>, name: string, o: Object) {
    exists k: nat :: Stores(events, k, name, o) && Untouched(events, k, name)
  }

  lemma StoresIs(events: seq<Event>, name: string, o: Object)
    requires events != [] && events[|events| - 1] == Request(name, o)
    ensures var before := After(events[..|events| - 1]);
            Stores(events, |events| - 1, name, o) <==> Admits(before.allowed, o, Stored(before, name))
  {
    var front := events[..|events| - 1];
    AdmitsExactly(After(front).allowed, o, Stored(After(front), name));
    hide Admits, Specified, Holds, ReferenceText, InForce, After;
    forall i: string
      ensures i in After(front).allowed <==> InForce(front, i)
    {
      AllowedIsInForce(front, i);
    }
  }

  lemma StoresBefore(events: seq<Event>, k: nat, name: string, o: Object)
    requires events != [] && k < |events| - 1
    ensures Stores(events, k, name, o) <==> Stores(events[..|events| - 1], k, name, o)
  {
    assert events[..|events| - 1][..k] == events[..k];
  }

  /** A workload is the object of the last request that was let into its place and not deleted since. */
  lemma {:induction false} LastRequestStands(events: seq<Event>, name: string, o: Object)
    ensures Stored(After(events), name) == Some(o) <==> Stands(events, name, o)
    decreases |events|
  {
    if events != [] {
      var front, last := events[..|events| - 1], events[|events| - 1];
      LastRequestStands(front, name, o);
      StandingMoves(events, name, o);
      if last.Request? {
        StoresIs(events, last.name, last.submitted);
      }
      OnlyItsRequest(events, |front|, name);
      hide Stores, Admits, Allowlist, ParseImage, Stands;
    }
  }

  lemma OnlyItsRequest(events: seq<Event>, k: nat, name: string)
    ensures forall o | Stores(events, k, name, o) :: k < |events| && events[k] == Request(name, o)
  {
  }

  lemma StandingMoves(events: seq<Event>, name: string, o: Object)
    requires events != []
    ensures var front, last := events[..|events| - 1], events[|events| - 1];
            Stands(events, name, o) <==>
              if exists x :: Stores(events, |front|, name, x) then last == Request(name, o)
              else last != Delete(name) && Stands(front, name, o)
  {
    var front, n := events[..|events| - 1], |events| - 1;
    StoredWithin(events, name);
    StoredWithin(front, name);
    hide Stores;
    if Ends(events, n, name) {
      assert Untouched(events, n, name);
      assert forall k: nat | k < n :: !Untouched(events, k, name);
    } else {
      forall k: nat | k < n
        ensures Stores(events, k, name, o) <==> Stores(front, k, name, o)
        ensures Untouched(events, k, name) <==> Untouched(front, k, name)
      {
        StoresBefore(events, k, name, o);
        UntouchedMoves(events, k, name);
      }
      hide Untouched;
    }
  }

  lemma StoredWithin(events: seq<Event>, name: string)
    ensures forall k: nat, o | Stores(events, k, name, o) :: k < |events| && events[k] == Request(name, o)
  {
  }

  lemma UntouchedMoves(events: seq<Event>, k: nat, name: string)
    requires events != [] && k < |events| - 1 && !Ends(events, |events| - 1, name)
    ensures Untouched(events, k, name) <==> Untouched(events[..|events| - 1], k, name)
  {
    var front := events[..|events| - 1];
    forall m: nat | k < m < |front|
      ensures Ends(events, m, name) <==> Ends(front, m, name)
    {
      forall o
        ensures Stores(events, m, name, o) <==> Stores(front, m, name, o)
      {
        StoresBefore(events, m, name, o);
      }
      hide Stores;
    }
    hide Ends;
  }

  // ------------------------------------------------------------------ where an image came from

  /** The k-th event was a request, let in, that added the image to this workload. */
  ghost predicate Introduces(events: seq<Event>, k: nat, name: string, image: string) {
    && k < |events| && events[k].Request? && Stores(events, k, name, events[k].submitted)
    && Holds(Some(events[k].submitted), image) && !Holds(Stored(After(events[..k]), name), image)
    && ReferenceText(image) && InForce(events[..k], image)
  }

  /** It was added by the k-th event and has been there ever since. */
  ghost predicate Since(events: seq<Event>, k: nat, name: string, image: string) {
    && Introduces(events, k, name, image)
    && forall m {:trigger events[..m]} | k < m <= |events| :: Holds(Stored(After(events[..m]), name), image)
  }

  lemma SinceExtends(events: seq<Event>, k: nat, name: string, image: string)
    requires events != [] && Since(events[..|events| - 1], k, name, image)
    requires Holds(Stored(After(events), name), image)
    ensures Since(events, k, name, image)
  {
    hide After, Stores, ReferenceText, Holds, InForce;
    var before := events[..|events| - 1];
    assert before[..k] == events[..k];
    StoresBefore(events, k, name, events[k].submitted);
    forall m | k < m <= |events|
      ensures Holds(Stored(After(events[..m]), name), image)
    {
      if m == |events| {
        assert events[..m] == events;
      } else {
        assert before[..m] == events[..m];
      }
    }
  }

  lemma JustIntroduced(events: seq<Event>, name: string, image: string)
    requires events != []
    requires var before, e := After(events[..|events| - 1]), events[|events| - 1];
             && e.Request? && e.name == name && Admits(before.allowed, e.submitted, Stored(before, name))
             && Holds(Some(e.submitted), image) && !Holds(Stored(before, name), image)
    ensures Since(events, |events| - 1, name, image)
  {
    var before, e := After(events[..|events| - 1]), events[|events| - 1];
    StoresIs(events, name, e.submitted);
    assert events[..|events|] == events;
    assert Stored(After(events), name) == Some(e.submitted);
    hide Admits, ReferenceText, Holds, After, InForce;
  }

  /**
    Every image of every stored workload is an immutable reference that was approved by the list in
    force at the request that brought it into that workload, where it has stayed since.
   */
  lemma {:induction false} EveryImageWasApproved(events: seq<Event>, name: string, image: string)
    requires Holds(Stored(After(events), name), image)
    ensures exists k :: Since(events, k, name, image)
    decreases |events|
  {
    if events == [] {
      assert false;
    } else {
      var before, e := events[..|events| - 1], events[|events| - 1];
      if Holds(Stored(After(before), name), image) {
        EveryImageWasApproved(before, name, image);
        hide After, Since;
        var k :| Since(before, k, name, image);
        SinceExtends(events, k, name, image);
      } else {
        StoredByRequest(events, name, image);
        JustIntroduced(events, name, image);
      }
    }
  }

  lemma StoredByRequest(events: seq<Event>, name: string, image: string)
    requires events != [] && Holds(Stored(After(events), name), image)
    requires !Holds(Stored(After(events[..|events| - 1]), name), image)
    ensures var before, e := After(events[..|events| - 1]), events[|events| - 1];
            && e.Request? && e.name == name && Admits(before.allowed, e.submitted, Stored(before, name))
            && Holds(Some(e.submitted), image)
  {
    NothingHeld();
    hide Admits, Holds, Allowlist, ParseImage;
  }

  /** An update that adds no image is admitted whatever the list says, even after a revocation. */
  lemma UpdatesWithoutNewImagesPass(events: seq<Event>, name: string, o: Object)
    requires name in After(events).workloads
    requires Specified(o) && forall i | Holds(Some(o), i) :: Holds(Stored(After(events), name), i)
    ensures var after := After(events + [Request(name, o)]); name in after.workloads && after.workloads[name] == o
  {
    StoredHaveSpecs(events, name);
    AdmitsExactly(After(events).allowed, o, Stored(After(events), name));
    assert (events + [Request(name, o)])[..|events|] == events;
    hide Admits, Holds, Specified;
  }

  lemma {:induction false} StoredHaveSpecs(events: seq<Event>, name: string)
    ensures name in After(events).workloads ==> Specified(After(events).workloads[name])
    decreases |events|
  {
    if events != [] {
      var before, e := After(events[..|events| - 1]), events[|events| - 1];
      StoredHaveSpecs(events[..|events| - 1], name);
      if e.Request? {
        AdmitsExactly(before.allowed, e.submitted, Stored(before, e.name));
      }
      hide Admits, Specified, Holds, Allowlist, ParseImage;
    }
  }

  /** While an image is off the list, no workload that lacks it can gain it. */
  lemma RevokedStaysOut(events: seq<Event>, more: seq<Event>, name: string, image: string)
    requires forall m | |events| <= m <= |events + more| :: !InForce((events + more)[..m], image)
    requires !Holds(Stored(After(events), name), image)
    ensures !Holds(Stored(After(events + more), name), image)
  {
    var all := events + more;
    assert all[..|events|] == events;
    forall k: nat
      ensures !Since(all, k, name, image)
    {
      hide After, Holds, Stores, ReferenceText, InForce;
    }
    hide After, Since, Holds;
    if Holds(Stored(After(all), name), image) {
      EveryImageWasApproved(all, name, image);
    }
  }
}
