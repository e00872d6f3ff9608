/** What a decision and a change by hand answer and write, field by field. */
module ApprovalOutcomes {
  import opened Wrappers
  import opened Approval

  // ---- a decision ----------------------------------------------------------

  /** The leader of the church decides as the pastor. */
  predicate IsPastor(c: Church, d: Decision) {
    c.leader.Some? && c.leader.value == d.user
  }

  predicate IsTreasurer(c: Church, d: Decision) {
    !IsPastor(c, d) && d.user in c.treasurers
  }

  /** The products that the decision approves: those given, or all when none is given. */
  predicate Approves(r: Request, d: Decision, p: Product) {
    d.approve && if d.chosen.Some? then p in d.chosen.value else p in r.items
  }

  predicate IsOpen(r: Request) {
    r.status in {Requested, InReview, AwaitingTreasury, AwaitingPastor}
  }

  /** Whoever may decide, in a request that is open, on a side that has not decided. */
  predicate MayDecide(c: Church, r: Request, d: Decision) {
    IsOpen(r) && if IsPastor(c, d) then r.pastor.Silent? else IsTreasurer(c, d) && r.treasury.Silent?
  }

  /** A decision is taken exactly by whoever may, refusing or approving some of the products and
      no other; otherwise the first check that fails says why. */
  lemma DecideAnswers(c: Church, r: Request, d: Decision)
    ensures var result := Decide(c, r, d);
      && (result == Failure(NoSide) <==> !IsPastor(c, d) && !IsTreasurer(c, d))
      && (result == Failure(AlreadyDecided) <==> (IsPastor(c, d) || IsTreasurer(c, d)) && !IsOpen(r))
      && (result == Failure(SideDecided) <==>
        (IsPastor(c, d) || IsTreasurer(c, d)) && IsOpen(r) && !MayDecide(c, r, d))
      && (result == Failure(ForeignProduct) <==>
        MayDecide(c, r, d) && exists p: Product :: Approves(r, d, p) && p !in r.items)
      && (result == Failure(NothingChosen) <==>
        MayDecide(c, r, d) && d.approve && forall p: Product :: !Approves(r, d, p))
      && (result.Success? <==>
        && MayDecide(c, r, d)
        && (d.approve ==> exists p: Product :: Approves(r, d, p))
        && forall p: Product :: Approves(r, d, p) ==> p in r.items)
  {
    forall p: Product
      ensures p in Chosen(r, d) <==> Approves(r, d, p)
    {
    }
  }

  /** The deciding side signs and marks every product; the other side's part stays. A refusal takes
      every product out. When the other side approved before, the products both approve are
      accepted and the others are not; before that there is no result. */
  lemma DecideWrites(c: Church, r: Request, d: Decision, p: Product)
    requires Decide(c, r, d).Success?
    ensures var after := Decide(c, r, d).value;
      var mine := if d.approve then Yes else No;
      && after.items.Keys == r.items.Keys
      && (IsPastor(c, d) ==>
        && after.pastor == mine && after.pastorId == Some(d.user)
        && after.treasury == r.treasury && after.treasurerId == r.treasurerId)
      && (!IsPastor(c, d) ==>
        && after.treasury == mine && after.treasurerId == Some(d.user)
        && after.pastor == r.pastor && after.pastorId == r.pastorId)
      && (p in r.items ==>
        var other := if IsPastor(c, d) then r.treasury else r.pastor;
        var otherMark := if IsPastor(c, d) then r.items[p].treasury else r.items[p].pastor;
        var mark := if Approves(r, d, p) then Yes else No;
        var result := if !d.approve then No
                      else if other != Yes then Silent
                      else if Approves(r, d, p) && otherMark == Yes then Yes else No;
        after.items[p] == if IsPastor(c, d) then Item(result, mark, otherMark) else Item(result, otherMark, mark))
  {
  }

  predicate BothApprove(c: Church, r: Request, d: Decision, p: Product) {
    p in r.items && Approves(r, d, p) && (if IsPastor(c, d) then r.items[p].treasury else r.items[p].pastor) == Yes
  }

  /** A refusal closes the request as rejected; a first approval leaves it to the other side; a second
      one closes it by what both approve: everything, something or nothing. */
  lemma DecideCloses(c: Church, r: Request, d: Decision)
    requires Decide(c, r, d).Success?
    ensures var status := Decide(c, r, d).value.status;
      var other := if IsPastor(c, d) then r.treasury else r.pastor;
      && (!d.approve ==> status == Rejected)
      && (d.approve && other != Yes ==> status == if IsPastor(c, d) then AwaitingTreasury else AwaitingPastor)
      && (d.approve && other == Yes ==>
        && (status == Rejected <==> forall p: Product :: !BothApprove(c, r, d, p))
        && (status == Accepted <==>
          (exists p: Product :: BothApprove(c, r, d, p)) && forall p :: p in r.items ==> BothApprove(c, r, d, p))
        && status in {Rejected, Accepted, PartiallyAccepted})
  {
    var side := SideOf(c, d.user).value;
    var common := InCommon(r, side, d);
    if d.approve && Said(r, Other(side)) == Yes {
      forall p: Product
        ensures p in common <==> BothApprove(c, r, d, p)
      {
      }
      Whole(common, r.items.Keys);
      assert |r.items| == |r.items.Keys|;
      assert |common| == 0 <==> common == {};
      if forall p :: p in r.items ==> BothApprove(c, r, d, p) {
        assert common == r.items.Keys;
      }
    }
  }

  // ---- by hand -------------------------------------------------------------

  /** By hand a request goes back to requested or under review, until somebody decides; asking for
      what is already there changes nothing. */
  lemma ChangeWrites(r: Request, m: Manual)
    ensures var result := ChangeStatus(r, m);
      var asked := match m
                   case Keep => r.status
                   case BackToRequested => Requested
                   case PutInReview => InReview;
      && (result.Success? <==> asked == r.status || r.status in {Requested, InReview})
      && (result.Success? ==> result.value == r.(status := asked))
      && (result.Failure? ==> result.error == InTheirHands)
  {
  }

  /** Written late, after the request was read, the status goes over what is there by then; but it
      is written only when another one than the one read was asked for, and nobody had decided. */
  lemma LateWrites(read: Request, m: Manual, now: Request)
    ensures var asked := match m
                         case Keep => read.status
                         case BackToRequested => Requested
                         case PutInReview => InReview;
      LateWrite(read, m, now) ==
        if asked != read.status && read.status in {Requested, InReview} then now.(status := asked) else now
  {
  }
}
