/** The evidence record as a sorted list, and the repository check that walks over it. */
module ImageRecord {
  import opened Wrappers
  import opened ImageReference
  import opened PolicyExceptions
  import opened ImageEvidence
  import opened ImageEntries
  import opened ImageGrammar
  import opened PolicyLaws

  // ------------------------------------------------------------------ the order of the list

  /** Lexicographic order of texts, character by character. */
  predicate Leq(a: string, b: string) {
    a == "" || (b != "" && (a[0] < b[0] || (a[0] == b[0] && Leq(a[1..], b[1..]))))
  }

  predicate Before(a: Evidence, b: Evidence) {
    if a.repository == b.repository then Leq(a.digest, b.digest) else Leq(a.repository, b.repository)
  }

  predicate SameKey(a: Evidence, b: Evidence) {
    a.repository == b.repository && a.digest == b.digest
  }

  lemma {:induction false} LeqTotal(a: string, b: string)
    ensures Leq(a, b) || Leq(b, a)
    ensures Leq(a, b) && Leq(b, a) ==> a == b
    ensures a == b ==> Leq(a, b)
    decreases |a|
  {
    if a != "" && b != "" && a[0] == b[0] {
      LeqTotal(a[1..], b[1..]);
      assert a == [a[0]] + a[1..] && b == [b[0]] + b[1..];
    }
  }

  lemma {:induction false} LeqTrans(a: string, b: string, c: string)
    requires Leq(a, b) && Leq(b, c)
    ensures Leq(a, c)
    decreases |a|
  {
    if a != "" && a[0] == b[0] == c[0] {
      LeqTrans(a[1..], b[1..], c[1..]);
    }
  }

  lemma BeforeTotal(a: Evidence, b: Evidence)
    ensures Before(a, b) || Before(b, a)
    ensures Before(a, b) && Before(b, a) ==> SameKey(a, b)
  {
    LeqTotal(a.repository, b.repository);
    LeqTotal(a.digest, b.digest);
  }

  lemma BeforeTrans(a: Evidence, b: Evidence, c: Evidence)
    requires Before(a, b) && Before(b, c)
    ensures Before(a, c)
  {
    hide Leq;
    LeqTotal(a.repository, b.repository);
    LeqTotal(b.repository, c.repository);
    if a.repository == b.repository == c.repository {
      LeqTrans(a.digest, b.digest, c.digest);
    } else if a.repository != b.repository && b.repository != c.repository {
      LeqTrans(a.repository, b.repository, c.repository);
    }
  }

  ghost predicate Sorted(images: seq<Evidence>) {
    forall i, j | 0 <= i < j < |images| :: Before(images[i], images[j])
  }

  // ------------------------------------------------------------------ recording

  function Keep(images: seq<Evidence>, image: string): seq<Evidence> {
    if images == [] then []
    else Keep(images[..|images| - 1], image)
         + if images[|images| - 1].image != image then [images[|images| - 1]] else []
  }

  /** The place before the first entry that must come after `e`. */
  method Place(sorted: seq<Evidence>, e: Evidence) returns (at: nat)
    requires Sorted(sorted)
    ensures at <= |sorted|
    ensures forall i | 0 <= i < at :: Before(sorted[i], e)
    ensures forall i | at <= i < |sorted| :: Before(e, sorted[i])
  {
    at := |sorted|;
    while at > 0 && !Before(sorted[at - 1], e)
      invariant at <= |sorted|
      invariant forall i | at <= i < |sorted| :: Before(e, sorted[i])
    {
      BeforeTotal(sorted[at - 1], e);
      at := at - 1;
    }
    if at > 0 {
      forall i | 0 <= i < at - 1
        ensures Before(sorted[i], e)
      {
        BeforeTrans(sorted[i], sorted[at - 1], e);
      }
    }
  }

  method Sort(images: seq<Evidence>) returns (sorted: seq<Evidence>)
    ensures Sorted(sorted) && multiset(sorted) == multiset(images)
  {
    hide Before;
    sorted := [];
    for i := 0 to |images|
      invariant Sorted(sorted) && multiset(sorted) == multiset(images[..i])
    {
      var at := Place(sorted, images[i]);
      assert images[..i + 1] == images[..i] + [images[i]];
      assert sorted == sorted[..at] + sorted[at..];
      sorted := sorted[..at] + [images[i]] + sorted[at..];
    }
    assert images[..|images|] == images;
  }

  /** Replaces the entry of one image and sorts the list again. */
  method Record(images: seq<Evidence>, entry: Evidence) returns (recorded: seq<Evidence>)
    ensures Sorted(recorded)
    ensures multiset(recorded) == multiset(Keep(images, entry.image) + [entry])
    ensures Allowlist(recorded) ==
            Allowlist(images) - {entry.image} + if entry.status == Approved then {entry.image} else {}
  {
    var kept: seq<Evidence> := [];
    for i := 0 to |images|
      invariant kept == Keep(images[..i], entry.image)
    {
      assert images[..i + 1][..i] == images[..i];
      if images[i].image != entry.image {
        kept := kept + [images[i]];
      }
    }
    assert images[..|images|] == images;
    recorded := Sort(kept + [entry]);
    RecordedAllowlist(images, entry, recorded);
  }

  /** The images that the rendered policy admits. */
  function Allowlist(images: seq<Evidence>): set<string> {
    set e | e in images && e.status == Approved :: e.image
  }

  lemma {:induction false} KeepHas(images: seq<Evidence>, image: string, e: Evidence)
    ensures e in Keep(images, image) <==> e in images && e.image != image
    decreases |images|
  {
    if images != [] {
      KeepHas(images[..|images| - 1], image, e);
      assert images == images[..|images| - 1] + [images[|images| - 1]];
    }
  }

  lemma RecordedAllowlist(images: seq<Evidence>, entry: Evidence, recorded: seq<Evidence>)
    requires multiset(recorded) == multiset(Keep(images, entry.image) + [entry])
    ensures Allowlist(recorded) ==
            Allowlist(images) - {entry.image} + if entry.status == Approved then {entry.image} else {}
  {
    hide *;
    forall image
      ensures image in Allowlist(recorded) <==>
              if image == entry.image then entry.status == Approved else image in Allowlist(images)
    {
      RecordedHas(images, entry, recorded);
      AllowlistMoves(images, entry, recorded, image);
    }
  }

  lemma AllowlistMoves(images: seq<Evidence>, entry: Evidence, recorded: seq<Evidence>, image: string)
    requires forall e :: e in recorded <==> e == entry || (e in images && e.image != entry.image)
    ensures image in Allowlist(recorded) <==>
            if image == entry.image then entry.status == Approved else image in Allowlist(images)
  {
    if image in Allowlist(recorded) {
      var e :| e in recorded && e.status == Approved && e.image == image;
    }
    if image == entry.image {
      assert entry in recorded;
    }
    if image != entry.image && image in Allowlist(images) {
      var e :| e in images && e.status == Approved && e.image == image;
      assert e in recorded;
    }
  }

  lemma RecordedHas(images: seq<Evidence>, entry: Evidence, recorded: seq<Evidence>)
    requires multiset(recorded) == multiset(Keep(images, entry.image) + [entry])
    ensures forall e :: e in recorded <==> e == entry || (e in images && e.image != entry.image)
  {
    var all := Keep(images, entry.image) + [entry];
    forall e
      ensures e in recorded <==> e == entry || (e in images && e.image != entry.image)
    {
      KeepHas(images, entry.image, e);
      assert e in recorded <==> e in multiset(recorded);
      assert e in all <==> e in multiset(all);
    }
  }

  // ------------------------------------------------------------------ one list for one content

  ghost predicate DistinctImages(images: seq<Evidence>) {
    forall i, j | 0 <= i < j < |images| :: !SameKey(images[i], images[j])
  }

  /** Two sorted lists of the same entries with distinct keys are the same list. */
  lemma {:induction false} SortedIsCanonical(a: seq<Evidence>, b: seq<Evidence>)
    requires Sorted(a) && Sorted(b) && multiset(a) == multiset(b) && DistinctImages(a)
    ensures a == b
    decreases |a|
  {
    assert |multiset(a)| == |a| && |multiset(b)| == |b|;
    if a != [] {
      hide Before, SameKey;
      HeadsAgree(a, b);
      assert a == [a[0]] + a[1..] && b == [b[0]] + b[1..];
      assert multiset(a[1..]) == multiset(a) - multiset{a[0]};
      assert multiset(b[1..]) == multiset(b) - multiset{b[0]};
      SortedIsCanonical(a[1..], b[1..]);
    }
  }

  lemma HeadsAgree(a: seq<Evidence>, b: seq<Evidence>)
    requires a != [] && b != [] && Sorted(a) && Sorted(b) && multiset(a) == multiset(b) && DistinctImages(a)
    ensures a[0] == b[0]
  {
    hide Before, SameKey;
    assert b[0] in multiset(b) && a[0] in multiset(a);
    var i :| 0 <= i < |a| && a[i] == b[0];
    var j :| 0 <= j < |b| && b[j] == a[0];
    BeforeTotal(a[0], b[0]);
  }

  /** Recording two different images gives the same list in either order. */
  lemma RecordsCommute(
    images: seq<Evidence>, x: Evidence, y: Evidence,
    afterX: seq<Evidence>, xy: seq<Evidence>, afterY: seq<Evidence>, yx: seq<Evidence>)
    requires x.image != y.image
    requires multiset(afterX) == multiset(Keep(images, x.image) + [x])
    requires Sorted(xy) && multiset(xy) == multiset(Keep(afterX, y.image) + [y])
    requires multiset(afterY) == multiset(Keep(images, y.image) + [y])
    requires Sorted(yx) && multiset(yx) == multiset(Keep(afterY, x.image) + [x])
    requires DistinctImages(xy)
    ensures xy == yx
  {
    hide Sorted, DistinctImages;
    KeepCounts(images, x.image);
    KeepCounts(images, y.image);
    KeepCounts(afterX, y.image);
    KeepCounts(afterY, x.image);
    hide Keep;
    forall e
      ensures multiset(xy)[e] == multiset(yx)[e]
    {
    }
    assert multiset(xy) == multiset(yx);
    SortedIsCanonical(xy, yx);
  }

  lemma {:induction false} KeepCounts(images: seq<Evidence>, image: string)
    ensures forall e :: multiset(Keep(images, image))[e] == if e.image != image then multiset(images)[e] else 0
    decreases |images|
  {
    if images != [] {
      KeepCounts(images[..|images| - 1], image);
      assert images == images[..|images| - 1] + [images[|images| - 1]];
    }
  }

  // ------------------------------------------------------------------ the walk over the record

  datatype Finding = Finding(index: nat, error: CheckError)

  predicate Readable(e: Evidence) {
    ParseImage(e.image).Some?
  }

  /** An earlier readable entry names the same image. */
  ghost predicate Repeated(images: seq<Evidence>, i: nat)
    requires i < |images|
  {
    Readable(images[i]) && exists k | 0 <= k < i :: images[k].image == images[i].image
  }

  /** Reports, for every entry, exactly what is wrong with it and whether it was recorded before. */
  method CheckImages(images: seq<Evidence>, exceptions: seq<Exception>, today: int) returns (errors: set<Finding>)
    ensures forall f :: f in errors <==>
              f.index < |images|
              && (f.error in EntryErrors(images[f.index], exceptions, today)
                  || (f.error == RecordedTwice && Repeated(images, f.index)))
    ensures DistinctKeys(exceptions) ==>
              (errors == {} <==>
                 && (forall i | 0 <= i < |images| :: AcceptedEntry(images[i], exceptions, today))
                 && forall i, j | 0 <= i < j < |images| :: images[i].image != images[j].image)
  {
    hide EntryErrors, ParseImage, AcceptedEntry;
    errors := {};
    var seen: set<string> := {};
    for index := 0 to |images|
      invariant seen == set k | 0 <= k < index && Readable(images[k]) :: images[k].image
      invariant forall f :: f in errors <==>
                  f.index < index
                  && (f.error in EntryErrors(images[f.index], exceptions, today)
                      || (f.error == RecordedTwice && Repeated(images, f.index)))
    {
      var e := images[index];
      var found := EntryErrors(e, exceptions, today);
      ghost var before := errors;
      errors := errors + set error | error in found :: Finding(index, error);
      SeenIsRepeated(images, index, seen);
      if Readable(e) {
        if e.image in seen {
          errors := errors + {Finding(index, RecordedTwice)};
        }
        seen := seen + {e.image};
      }
    }
    if DistinctKeys(exceptions) {
      CleanRecord(images, exceptions, today, errors);
    }
  }

  lemma CleanRecord(images: seq<Evidence>, exceptions: seq<Exception>, today: int, errors: set<Finding>)
    requires DistinctKeys(exceptions)
    requires forall f :: f in errors <==>
               f.index < |images|
               && (f.error in EntryErrors(images[f.index], exceptions, today)
                   || (f.error == RecordedTwice && Repeated(images, f.index)))
    ensures errors == {} <==>
              && (forall i | 0 <= i < |images| :: AcceptedEntry(images[i], exceptions, today))
              && forall i, j | 0 <= i < j < |images| :: images[i].image != images[j].image
  {
    hide EntryErrors, ParseImage, AcceptedEntry;
    forall i | 0 <= i < |images|
      ensures EntryErrors(images[i], exceptions, today) == {} <==> AcceptedEntry(images[i], exceptions, today)
      ensures AcceptedEntry(images[i], exceptions, today) ==> Readable(images[i])
    {
      EntryAccepted(images[i], exceptions, today);
      AcceptedIsReadable(images[i], exceptions, today);
    }
    hide DistinctKeys;
    if errors == {} {
      forall i | 0 <= i < |images|
        ensures EntryErrors(images[i], exceptions, today) == {} && !Repeated(images, i)
      {
        forall error
          ensures error !in EntryErrors(images[i], exceptions, today)
        {
          assert Finding(i, error) !in errors;
        }
        assert Finding(i, RecordedTwice) !in errors;
      }
    }
  }

  lemma AcceptedIsReadable(e: Evidence, exceptions: seq<Exception>, today: int)
    ensures AcceptedEntry(e, exceptions, today) ==> Readable(e)
  {
    ParsedIs(e.image);
    hide ParseImage, Reads;
  }

  lemma SeenIsRepeated(images: seq<Evidence>, index: nat, seen: set<string>)
    requires index < |images| && seen == set k | 0 <= k < index && Readable(images[k]) :: images[k].image
    ensures Readable(images[index]) && images[index].image in seen <==> Repeated(images, index)
  {
    hide ParseImage;
    if Repeated(images, index) {
      var k :| 0 <= k < index && images[k].image == images[index].image;
      assert Readable(images[k]);
    }
  }
}
