/** The image references of a session as the shared, mutable objects they are: what the deep copy of a preview is for. */
module ImageObjects {
  import opened Ordering
  import opened ImageRetention
  import opened ImageLaws

  /** One reference object; whoever holds it sees it change. */
  class Reference {
    var now: Ref

    constructor (r: Ref)
      ensures now == r
    {
      now := r;
    }
  }

  function Values(objects: seq<Reference>): (refs: seq<Ref>)
    reads objects
    ensures |refs| == |objects| && forall k | 0 <= k < |objects| :: refs[k] == objects[k].now
  {
    seq(|objects|, k requires 0 <= k < |objects| reads objects => objects[k].now)
  }

  /** Every object gets the value at its place; the objects stay the same. */
  method WriteBack(objects: seq<Reference>, refs: seq<Ref>)
    requires Distinct(objects) && |refs| == |objects|
    modifies objects
    ensures Values(objects) == refs
  {
    for k := 0 to |objects|
      invariant forall j | 0 <= j < k :: objects[j].now == refs[j]
    {
      objects[k].now := refs[k];
    }
  }

  method DeepCopy(objects: seq<Reference>) returns (copies: seq<Reference>)
    ensures Distinct(copies) && (forall k | 0 <= k < |copies| :: fresh(copies[k])) && Values(copies) == Values(objects)
  {
    copies := [];
    for k := 0 to |objects|
      invariant Distinct(copies) && (forall k | 0 <= k < |copies| :: fresh(copies[k]))
      invariant |copies| == k && forall j | 0 <= j < k :: copies[j].now == objects[j].now
    {
      var r := new Reference(objects[k].now);
      copies := copies + [r];
    }
  }

  lemma PreparedShape(c: Context, limits: Limits, req: Request)
    ensures |Prepare(c, limits, req).0.images| == |c.images| && Prepare(c, limits, req).0.round == c.round
  {
    PrepareOnlyRetires(c, limits, req);
  }

  /** What preparing on values yields, for the objects to take over. */
  method PrepareValues(limits: Limits, c: Context, req: Request) returns (after: Context, p: Projection)
    ensures (after, p) == Prepare(c, limits, req) && |after.images| == |c.images| && after.round == c.round
  {
    var work := new ImageContext.At(limits, c);
    p := work.PrepareRequest(req);
    after := work.View();
    PreparedShape(c, limits, req);
  }

  class Session {
    const limits: Limits
    var images: seq<Reference>
    var notices: map<string, string>
    var selected: seq<string>
    var noticeIds: set<string>
    var round: nat

    ghost predicate Valid()
      reads this
    {
      Distinct(images)
    }

    function View(): Context
      reads this, images
    {
      Context(Values(images), notices, selected, noticeIds, round)
    }

    constructor (limits: Limits, images: seq<Reference>, c: Context)
      requires Distinct(images) && Values(images) == c.images
      ensures Valid() && this.limits == limits && this.images == images && View() == c
    {
      this.limits, this.images, notices := limits, images, c.notices;
      selected, noticeIds, round := c.selected, c.noticeIds, c.round;
    }

    /** Takes over these values; the objects stay the same. */
    method TakeOver(c: Context)
      requires Valid() && |c.images| == |images| && c.round == round
      modifies this, images
      ensures Valid() && images == old(images) && View() == c
    {
      WriteBack(images, c.images);
      notices, selected, noticeIds := c.notices, c.selected, c.noticeIds;
    }

    /** Changes the reference objects in place, as every holder of them will see. */
    method PrepareInPlace(req: Request) returns (p: Projection)
      requires Valid()
      modifies this, images
      ensures Valid() && images == old(images)
      ensures (View(), p) == Prepare(old(View()), limits, req)
    {
      var after;
      after, p := PrepareValues(limits, View(), req);
      TakeOver(after);
    }

    /** Prepares on a deep copy: no object that existed before changes, whoever holds it, and the copy shares none. */
    method Preview(req: Request) returns (staged: Session, p: Projection)
      requires Valid()
      ensures fresh(staged) && staged.Valid() && staged.limits == limits && forall k | 0 <= k < |staged.images| :: fresh(staged.images[k])
      ensures (staged.View(), p) == Prepare(View(), limits, req)
      ensures images == old(images) && View() == old(View())
    {
      var c := View();
      var copies := DeepCopy(images);
      staged := new Session(limits, copies, c);
      assert staged.images == copies && staged.View() == c;
      p := staged.PrepareInPlace(req);
      assert View() == c;
    }

    /** Adopts the staged objects; the ones held before are dropped as they are. */
    method CommitStaged(staged: Session)
      requires staged.Valid()
      modifies this
      ensures Valid() && images == old(staged.images)
      ensures View() == Commit(old(View()), old(staged.View()))
    {
      images, notices := staged.images, staged.notices;
      selected, noticeIds := staged.selected, staged.noticeIds;
    }

    /** A committed preview leaves what preparing in place would have, except that the old objects keep their values. */
    method PreviewAndCommit(req: Request) returns (p: Projection)
      requires Valid()
      modifies this
      ensures Valid() && (forall k | 0 <= k < |images| :: fresh(images[k]))
      ensures (View(), p) == Prepare(old(View()), limits, req)
    {
      var staged;
      staged, p := Preview(req);
      CommitStaged(staged);
    }
  }
}
