/** Merging snapshots: each image once, under the best name seen for it. */
module SnapshotMerge {
  import opened Sequences

  datatype Component = Component(name: string, containerImage: string, source: string)

  datatype SnapshotSpec = SnapshotSpec(application: string, displayName: string, displayDescription: string,
                                       components: seq<Component>)

  const UNNAMED := "Unnamed"

  /** A placeholder gives way to any later name. */
  predicate IsPlaceholder(name: string) {
    name == "" || name == UNNAMED
  }

  function Images(cs: seq<Component>): seq<string> {
    seq(|cs|, i requires 0 <= i < |cs| => cs[i].containerImage)
  }

  // ----- what the merged components are, by image -----

  /** The components seen for the image, in order. */
  function Of(cs: seq<Component>, image: string): seq<Component> {
    Filter(cs, (c: Component) => c.containerImage == image)
  }

  /** The first real name or, if there is none, the last placeholder. */
  function BestName(cs: seq<Component>): string
    requires cs != []
  {
    if !IsPlaceholder(cs[0].name) || |cs| == 1 then cs[0].name else BestName(cs[1..])
  }

  /** The first component seen for the image, under the best name. */
  function Best(cs: seq<Component>): Component
    requires cs != []
  {
    cs[0].(name := BestName(cs))
  }

  function FirstSeen(cs: seq<Component>): seq<string> {
    if cs == [] then []
    else
      var n := |cs| - 1;
      var before := FirstSeen(cs[..n]);
      if cs[n].containerImage in before then before else before + [cs[n].containerImage]
  }

  /** The components are those of the images in first-seen order, each the best for its image. */
  ghost predicate MergeOf(merged: seq<Component>, cs: seq<Component>) {
    && Images(merged) == FirstSeen(cs)
    && forall i | 0 <= i < |merged| ::
         Of(cs, merged[i].containerImage) != [] && merged[i] == Best(Of(cs, merged[i].containerImage))
  }

  // ----- merging one more component -----

  function IndexOf(cs: seq<Component>, image: string): nat
    requires image in Images(cs)
    ensures IndexOf(cs, image) < |cs| && cs[IndexOf(cs, image)].containerImage == image
    ensures forall j | 0 <= j < IndexOf(cs, image) :: cs[j].containerImage != image
  {
    if cs[0].containerImage == image then 0
    else
      assert image in Images(cs[1..]) by {
        assert Images(cs) == [cs[0].containerImage] + Images(cs[1..]);
      }
      1 + IndexOf(cs[1..], image)
  }

  function MergeOne(cs: seq<Component>, c: Component): seq<Component> {
    if c.containerImage !in Images(cs) then cs + [c]
    else
      var i := IndexOf(cs, c.containerImage);
      if IsPlaceholder(cs[i].name) then cs[i := cs[i].(name := c.name)] else cs
  }

  function MergeAll(cs: seq<Component>, more: seq<Component>): seq<Component> {
    if more == [] then cs else MergeOne(MergeAll(cs, more[..|more| - 1]), more[|more| - 1])
  }

  class Snapshot {
    var application: string
    var displayName: string
    var displayDescription: string
    var components: seq<Component>

    function Value(): SnapshotSpec
      reads this
    {
      SnapshotSpec(application, displayName, displayDescription, components)
    }

    constructor ()
      ensures Value() == SnapshotSpec("", "", "", [])
    {
      application, displayName, displayDescription, components := "", "", "", [];
    }

    /** The local map holds the name of every image; where it has one, there is a component with it. */
    method Merge(snap: SnapshotSpec)
      requires Distinct(Images(components))
      modifies this
      ensures Value() == Merged(old(Value()), snap)
      ensures Distinct(Images(components))
    {
      ghost var before := Value();
      FillBlanks(snap);
      var images := NamesOf(components);
      for k := 0 to |snap.components|
        invariant components == MergeAll(before.components, snap.components[..k])
        invariant Distinct(Images(components)) && Named(images, components)
        modifies `components
      {
        assert snap.components[..k + 1][..k] == snap.components[..k];
        components, images := MergeComponent(components, images, snap.components[k]);
      }
      assert snap.components[..|snap.components|] == snap.components;
    }

    method FillBlanks(snap: SnapshotSpec)
      modifies `application, `displayName, `displayDescription
      ensures application == FirstNonEmpty(old(application), snap.application)
      ensures displayName == FirstNonEmpty(old(displayName), snap.displayName)
      ensures displayDescription == FirstNonEmpty(old(displayDescription), snap.displayDescription)
    {
      if application == "" {
        application := snap.application;
      }
      if displayName == "" {
        displayName := snap.displayName;
      }
      if displayDescription == "" {
        displayDescription := snap.displayDescription;
      }
    }
  }

  ghost predicate Named(images: map<string, string>, cs: seq<Component>) {
    && (forall image :: image in images <==> image in Images(cs))
    && (forall c | c in cs :: c.containerImage in images && images[c.containerImage] == c.name)
  }

  /** Each component's name under its image; of two for the same image the later counts. */
  method NamesOf(cs: seq<Component>) returns (images: map<string, string>)
    requires Distinct(Images(cs))
    ensures Named(images, cs)
  {
    images := map[];
    for i := 0 to |cs|
      invariant forall image | image in images :: image in Images(cs)
      invariant forall j | 0 <= j < i :: cs[j].containerImage in images && images[cs[j].containerImage] == cs[j].name
    {
      assert Images(cs)[i] == cs[i].containerImage;
      assert forall j | 0 <= j < i :: cs[j].containerImage == Images(cs)[j] && Images(cs)[j] != Images(cs)[i];
      images := images[cs[i].containerImage := cs[i].name];
    }
  }

  method MergeComponent(cs: seq<Component>, names: map<string, string>, c: Component)
    returns (merged: seq<Component>, images: map<string, string>)
    requires Distinct(Images(cs)) && Named(names, cs)
    ensures merged == MergeOne(cs, c)
    ensures Distinct(Images(merged)) && Named(images, merged)
  {
    merged, images := cs, names;
    MergeOneStaysDistinct(cs, c);
    var ok := c.containerImage in images;
    if ok {
      var i := FindImage(cs, c.containerImage);
      assert cs[i] in cs;
      if images[c.containerImage] == "" || images[c.containerImage] == UNNAMED {
        images := images[c.containerImage := c.name];
        merged := merged[i := merged[i].(name := c.name)];
        NamedAfterRename(cs, names, i, c.name);
      }
    } else {
      images := images[c.containerImage := c.name];
      merged := merged + [c];
      assert Images(merged) == Images(cs) + [c.containerImage];
    }
  }

  lemma NamedAfterRename(cs: seq<Component>, names: map<string, string>, i: nat, name: string)
    requires i < |cs| && Distinct(Images(cs)) && Named(names, cs)
    ensures Named(names[cs[i].containerImage := name], cs[i := cs[i].(name := name)])
  {
    var after := cs[i := cs[i].(name := name)];
    assert Images(after) == Images(cs);
    assert Images(cs)[i] == cs[i].containerImage;
    forall c | c in after
      ensures c.containerImage in names && names[cs[i].containerImage := name][c.containerImage] == c.name
    {
      var j :| 0 <= j < |after| && after[j] == c;
      assert Images(cs)[j] == cs[j].containerImage;
      if j != i {
        assert cs[j] in cs;
      }
    }
  }

  method FindImage(cs: seq<Component>, image: string) returns (i: nat)
    requires image in Images(cs)
    ensures i == IndexOf(cs, image) && i < |cs|
  {
    i := 0;
    while cs[i].containerImage != image
      invariant i < |cs| && forall j | 0 <= j < i :: cs[j].containerImage != image
      decreases |cs| - i
    {
      i := i + 1;
    }
  }

  function FirstNonEmpty(a: string, b: string): string {
    if a == "" then b else a
  }

  function Merged(s: SnapshotSpec, snap: SnapshotSpec): SnapshotSpec {
    SnapshotSpec(FirstNonEmpty(s.application, snap.application),
                 FirstNonEmpty(s.displayName, snap.displayName),
                 FirstNonEmpty(s.displayDescription, snap.displayDescription),
                 MergeAll(s.components, snap.components))
  }

  lemma MergeOneStaysDistinct(cs: seq<Component>, c: Component)
    requires Distinct(Images(cs))
    ensures Distinct(Images(MergeOne(cs, c)))
  {
    var after := MergeOne(cs, c);
    if c.containerImage in Images(cs) {
      assert Images(after) == Images(cs);
    } else {
      assert Images(after) == Images(cs) + [c.containerImage];
    }
  }

  // ----- merging in steps and at once -----

  lemma {:induction false} MergeAllInSteps(cs: seq<Component>, a: seq<Component>, b: seq<Component>)
    ensures MergeAll(MergeAll(cs, a), b) == MergeAll(cs, a + b)
  {
    if b == [] {
      Empty(a);
    } else {
      var n := |b| - 1;
      MergeAllInSteps(cs, a, b[..n]);
      assert (a + b)[..|a + b| - 1] == a + b[..n];
    }
  }

  /** Merging one snapshot after another is merging the concatenation of their components. */
  lemma MergingInSteps(s: SnapshotSpec, a: SnapshotSpec, b: SnapshotSpec)
    ensures Merged(Merged(s, a), b)
            == Merged(s, SnapshotSpec(FirstNonEmpty(a.application, b.application),
                                      FirstNonEmpty(a.displayName, b.displayName),
                                      FirstNonEmpty(a.displayDescription, b.displayDescription),
                                      a.components + b.components))
  {
    MergeAllInSteps(s.components, a.components, b.components);
  }

  lemma {:induction false} BestNameOfOneMore(cs: seq<Component>, c: Component)
    requires cs != []
    ensures BestName(cs + [c]) == if IsPlaceholder(BestName(cs)) then c.name else BestName(cs)
  {
    assert (cs + [c])[0] == cs[0];
    if |cs| == 1 {
      assert (cs + [c])[1..] == [c];
    } else if IsPlaceholder(cs[0].name) {
      BestNameOfOneMore(cs[1..], c);
      assert (cs + [c])[1..] == cs[1..] + [c];
    }
  }

  lemma OfOneMore(cs: seq<Component>, c: Component, image: string)
    ensures Of(cs + [c], image) == if c.containerImage == image then Of(cs, image) + [c] else Of(cs, image)
  {
    FilterOfOneMore(cs + [c], |cs|, (x: Component) => x.containerImage == image);
    assert (cs + [c])[..|cs|] == cs && (cs + [c])[..|cs| + 1] == cs + [c];
  }

  lemma {:induction false} FirstSeenImages(cs: seq<Component>)
    ensures forall image :: image in FirstSeen(cs) <==> Of(cs, image) != []
    ensures Distinct(FirstSeen(cs))
  {
    if cs != [] {
      var init, c := cs[..|cs| - 1], cs[|cs| - 1];
      FirstSeenImages(init);
      assert cs == init + [c];
      forall image ensures image in FirstSeen(cs) <==> Of(cs, image) != [] {
        OfOneMore(init, c, image);
      }
    }
  }

  lemma MergeOneOf(merged: seq<Component>, cs: seq<Component>, c: Component)
    requires MergeOf(merged, cs)
    ensures MergeOf(MergeOne(merged, c), cs + [c])
  {
    var all := cs + [c];
    assert all[..|all| - 1] == cs;
    FirstSeenImages(cs);
    var image := c.containerImage;
    var after := MergeOne(merged, c);
    if image in Images(merged) {
      var i := IndexOf(merged, image);
      assert Images(after) == Images(merged);
      BestNameOfOneMore(Of(cs, image), c);
      forall j | 0 <= j < |after|
        ensures Of(all, after[j].containerImage) != [] && after[j] == Best(Of(all, after[j].containerImage))
      {
        OfOneMore(cs, c, merged[j].containerImage);
        if j != i {
          assert Images(merged)[j] != Images(merged)[i];
        }
      }
    } else {
      assert Images(after) == Images(merged) + [image];
      forall j | 0 <= j < |after|
        ensures Of(all, after[j].containerImage) != [] && after[j] == Best(Of(all, after[j].containerImage))
      {
        OfOneMore(cs, c, after[j].containerImage);
        if j < |merged| {
          assert merged[j].containerImage == Images(merged)[j];
          assert merged[j].containerImage in Images(merged);
        }
      }
    }
  }

  /** Starting from nothing, the merged components are, in first-seen order, each image's first
      component under the first real name seen for it or else the last placeholder. */
  lemma {:induction false} MergedComponents(cs: seq<Component>)
    ensures MergeOf(MergeAll([], cs), cs)
    ensures Distinct(Images(MergeAll([], cs)))
  {
    if cs != [] {
      var init, c := cs[..|cs| - 1], cs[|cs| - 1];
      MergedComponents(init);
      MergeOneOf(MergeAll([], init), init, c);
      assert cs == init + [c];
    }
    FirstSeenImages(cs);
  }

  // ----- any number of snapshots -----

  const NO_SNAPSHOT := SnapshotSpec("", "", "", [])

  function AfterMerging(snaps: seq<SnapshotSpec>): SnapshotSpec {
    if snaps == [] then NO_SNAPSHOT else Merged(AfterMerging(snaps[..|snaps| - 1]), snaps[|snaps| - 1])
  }

  function AllComponents(snaps: seq<SnapshotSpec>): seq<Component> {
    if snaps == [] then [] else AllComponents(snaps[..|snaps| - 1]) + snaps[|snaps| - 1].components
  }

  lemma {:induction false} MergedSnapshots(snaps: seq<SnapshotSpec>)
    ensures AfterMerging(snaps).components == MergeAll([], AllComponents(snaps))
    ensures MergeOf(AfterMerging(snaps).components, AllComponents(snaps))
    ensures Distinct(Images(AfterMerging(snaps).components))
  {
    if snaps != [] {
      MergedSnapshots(snaps[..|snaps| - 1]);
      MergeAllInSteps([], AllComponents(snaps[..|snaps| - 1]), snaps[|snaps| - 1].components);
    }
    MergedComponents(AllComponents(snaps));
  }

  // ----- in so many words -----

  lemma {:induction false} BestNameIsFirstReal(cs: seq<Component>, i: nat)
    requires i < |cs| && cs[i].name != "" && cs[i].name != "Unnamed"
    requires forall j | 0 <= j < i :: cs[j].name == "" || cs[j].name == "Unnamed"
    ensures BestName(cs) == cs[i].name
  {
    if i > 0 {
      BestNameIsFirstReal(cs[1..], i - 1);
    }
  }

  lemma {:induction false} BestNameIsLastPlaceholder(cs: seq<Component>)
    requires cs != [] && forall j | 0 <= j < |cs| :: cs[j].name == "" || cs[j].name == "Unnamed"
    ensures BestName(cs) == cs[|cs| - 1].name
  {
    if |cs| > 1 {
      BestNameIsLastPlaceholder(cs[1..]);
    }
  }

  /** The component of an image is the first one seen for it but for its name, which is the first that
      is neither empty nor "Unnamed" or, if all are, the last. */
  lemma BestComponent(cs: seq<Component>)
    requires cs != []
    ensures Best(cs).containerImage == cs[0].containerImage && Best(cs).source == cs[0].source
    ensures forall i | 0 <= i < |cs| && cs[i].name !in {"", "Unnamed"} && (forall j | 0 <= j < i :: cs[j].name in {"", "Unnamed"}) ::
              Best(cs).name == cs[i].name
    ensures (forall j | 0 <= j < |cs| :: cs[j].name in {"", "Unnamed"}) ==> Best(cs).name == cs[|cs| - 1].name
  {
    forall i | 0 <= i < |cs| && cs[i].name !in {"", "Unnamed"} && (forall j | 0 <= j < i :: cs[j].name in {"", "Unnamed"})
      ensures Best(cs).name == cs[i].name
    {
      BestNameIsFirstReal(cs, i);
    }
    if forall j | 0 <= j < |cs| :: cs[j].name in {"", "Unnamed"} {
      BestNameIsLastPlaceholder(cs);
    }
  }

  lemma {:induction false} SeenSomewhere(cs: seq<Component>, image: string) returns (k: nat)
    requires image in FirstSeen(cs)
    ensures k < |cs| && cs[k].containerImage == image
  {
    var n := |cs| - 1;
    if cs[n].containerImage == image {
      k := n;
    } else {
      k := SeenSomewhere(cs[..n], image);
    }
  }

  /** Images are in the order in which they were first seen. */
  lemma {:induction false} SeenInOrder(cs: seq<Component>, i: nat, j: nat) returns (k: nat)
    requires i < j < |FirstSeen(cs)|
    ensures k < |cs| && cs[k].containerImage == FirstSeen(cs)[i]
    ensures forall m | 0 <= m <= k :: cs[m].containerImage != FirstSeen(cs)[j]
  {
    var before, n := cs[..|cs| - 1], |cs| - 1;
    if j < |FirstSeen(before)| {
      k := SeenInOrder(before, i, j);
    } else {
      k := SeenSomewhere(before, FirstSeen(before)[i]);
      NotSeen(before, cs[n].containerImage);
    }
    assert forall m | 0 <= m < n :: before[m] == cs[m];
  }

  lemma NotSeen(cs: seq<Component>, image: string)
    requires image !in FirstSeen(cs)
    ensures forall m | 0 <= m < |cs| :: cs[m].containerImage != image
  {
    FirstSeenImages(cs);
    FilterElements(cs, (c: Component) => c.containerImage == image);
    forall m | 0 <= m < |cs| ensures cs[m].containerImage != image {
      assert cs[m] in cs;
    }
  }

  /** The application and the display texts are the first that are not empty, whichever snapshot has them. */
  lemma {:induction false} TextsOfMerged(snaps: seq<SnapshotSpec>, i: nat)
    requires i < |snaps|
    ensures snaps[i].application != "" && (forall j | 0 <= j < i :: snaps[j].application == "") ==>
              AfterMerging(snaps).application == snaps[i].application
    ensures snaps[i].displayName != "" && (forall j | 0 <= j < i :: snaps[j].displayName == "") ==>
              AfterMerging(snaps).displayName == snaps[i].displayName
    ensures snaps[i].displayDescription != "" && (forall j | 0 <= j < i :: snaps[j].displayDescription == "") ==>
              AfterMerging(snaps).displayDescription == snaps[i].displayDescription
  {
    var n := |snaps| - 1;
    if i < n {
      TextsOfMerged(snaps[..n], i);
    } else {
      EmptyTexts(snaps[..n]);
    }
  }

  lemma {:induction false} EmptyTexts(snaps: seq<SnapshotSpec>)
    ensures (forall j | 0 <= j < |snaps| :: snaps[j].application == "") ==> AfterMerging(snaps).application == ""
    ensures (forall j | 0 <= j < |snaps| :: snaps[j].displayName == "") ==> AfterMerging(snaps).displayName == ""
    ensures (forall j | 0 <= j < |snaps| :: snaps[j].displayDescription == "") ==> AfterMerging(snaps).displayDescription == ""
  {
    if snaps != [] {
      EmptyTexts(snaps[..|snaps| - 1]);
    }
  }
}
