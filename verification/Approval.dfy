/** A member's request to the church: the pastor and one treasurer each decide once, in
    either order; refusing takes one of them, accepting a product takes both. */
module Approval {
  import opened Wrappers

  type User = nat
  type Product = nat

  datatype Status = Requested | InReview | AwaitingTreasury | AwaitingPastor | Accepted | PartiallyAccepted | Rejected
  datatype Side = Pastor | Treasury

  /** A nullable yes or no. */
  datatype Vote = Silent | Yes | No

  /** What each side said of a product, and the result. */
  datatype Item = Item(accepted: Vote, pastor: Vote, treasury: Vote)

  datatype Request = Request(
    status: Status,
    pastor: Vote, pastorId: Option<User>,
    treasury: Vote, treasurerId: Option<User>,
    items: map<Product, Item>)

  datatype Church = Church(leader: Option<User>, treasurers: set<User>)

  /** `chosen`: the products approved; without the list, all of them. */
  datatype Decision = Decision(user: User, approve: bool, chosen: Option<set<Product>>)

  datatype Refusal = NoSide | AlreadyDecided | SideDecided | ForeignProduct | NothingChosen | InTheirHands

  function Voted(yes: bool): Vote {
    if yes then Yes else No
  }

  // ---- the operations ------------------------------------------------------

  /** `ANTES_DA_DECISAO` and `DECIDIDA` */
  predicate Untouched(s: Status) {
    s.Requested? || s.InReview?
  }

  predicate Closed(s: Status) {
    s.Accepted? || s.PartiallyAccepted? || s.Rejected?
  }

  /** `papel`: the spiritual leader decides as the pastor, even when also a treasurer. */
  function SideOf(c: Church, u: User): Option<Side> {
    if c.leader == Some(u) then Some(Pastor) else if u in c.treasurers then Some(Treasury) else None
  }

  function Said(r: Request, s: Side): Vote {
    if s.Pastor? then r.pastor else r.treasury
  }

  function Other(s: Side): Side {
    if s.Pastor? then Treasury else Pastor
  }

  function Mark(i: Item, s: Side): Vote {
    if s.Pastor? then i.pastor else i.treasury
  }

  function Chosen(r: Request, d: Decision): set<Product> {
    if !d.approve then {} else if d.chosen.Some? then d.chosen.value else r.items.Keys
  }

  /** The result of a product: only at the end, and only what both approved. */
  function Final(r: Request, s: Side, d: Decision, p: Product): Vote
    requires p in r.items
  {
    if !d.approve then No
    else if Said(r, Other(s)) == Yes then Voted(p in Chosen(r, d) && Mark(r.items[p], Other(s)) == Yes)
    else Silent
  }

  function Marked(r: Request, s: Side, d: Decision, p: Product): Item
    requires p in r.items
  {
    var mine := Voted(p in Chosen(r, d));
    var item := r.items[p];
    if s.Pastor? then Item(Final(r, s, d, p), mine, item.treasury) else Item(Final(r, s, d, p), item.pastor, mine)
  }

  function InCommon(r: Request, s: Side, d: Decision): set<Product> {
    set p | p in r.items && Final(r, s, d, p) == Yes
  }

  function NextStatus(r: Request, s: Side, d: Decision): Status {
    if !d.approve then Rejected
    else if Said(r, Other(s)) != Yes then if s.Pastor? then AwaitingTreasury else AwaitingPastor
    else if |InCommon(r, s, d)| == 0 then Rejected
    else if |InCommon(r, s, d)| == |r.items| then Accepted
    else PartiallyAccepted
  }

  function Refused(r: Request, s: Side, d: Decision): Option<Refusal> {
    if Closed(r.status) then Some(AlreadyDecided)
    else if !Said(r, s).Silent? then Some(SideDecided)
    else if !(Chosen(r, d) <= r.items.Keys) then Some(ForeignProduct)
    else if d.approve && Chosen(r, d) == {} then Some(NothingChosen)
    else None
  }

  function Written(r: Request, s: Side, d: Decision): Request {
    var items := map p | p in r.items :: Marked(r, s, d, p);
    if s.Pastor? then
      Request(NextStatus(r, s, d), Voted(d.approve), Some(d.user), r.treasury, r.treasurerId, items)
    else
      Request(NextStatus(r, s, d), r.pastor, r.pastorId, Voted(d.approve), Some(d.user), items)
  }

  /** `decidir` */
  function Decide(c: Church, r: Request, d: Decision): Result<Request, Refusal> {
    var side := SideOf(c, d.user);
    if side.None? then Failure(NoSide)
    else
      var refusal := Refused(r, side.value, d);
      if refusal.Some? then Failure(refusal.value) else Success(Written(r, side.value, d))
  }

  /** The admin puts a request under review, or takes it back. */
  datatype Manual = Keep | BackToRequested | PutInReview

  function Wanted(r: Request, m: Manual): Status {
    match m
    case Keep => r.status
    case BackToRequested => Requested
    case PutInReview => InReview
  }

  /** `mudarStatus` */
  function ChangeStatus(r: Request, m: Manual): Result<Request, Refusal> {
    if Wanted(r, m) != r.status && !Untouched(r.status) then Failure(InTheirHands)
    else Success(r.(status := Wanted(r, m)))
  }

  /** Each decision sees the church as it is at that time. */
  datatype Op = DoDecide(c: Church, d: Decision) | DoChange(m: Manual)

  function Attempt(r: Request, op: Op): Result<Request, Refusal> {
    match op
    case DoDecide(c, d) => Decide(c, r, d)
    case DoChange(m) => ChangeStatus(r, m)
  }

  function Apply(r: Request, op: Op): Request {
    var end := Attempt(r, op);
    if end.Success? then end.value else r
  }

  function Run(r: Request, ops: seq<Op>): Request {
    if ops == [] then r else Apply(Run(r, ops[..|ops| - 1]), ops[|ops| - 1])
  }

  /** A request just made. */
  function Made(products: set<Product>): Request {
    Request(Requested, Silent, None, Silent, None, map p | p in products :: Item(Silent, Silent, Silent))
  }

  // ---- what the two decisions fix ------------------------------------------

  /** The products both sides marked. */
  function Both(items: map<Product, Item>): set<Product> {
    set p | p in items && items[p].pastor == Yes && items[p].treasury == Yes
  }

  /** The status the decisions and the marks call for; before any decision it is the admin's. */
  predicate StatusFits(r: Request) {
    if r.pastor.Silent? && r.treasury.Silent? then Untouched(r.status)
    else if r.pastor == No || r.treasury == No then r.status == Rejected
    else if r.treasury.Silent? then r.status == AwaitingTreasury
    else if r.pastor.Silent? then r.status == AwaitingPastor
    else if Both(r.items) == {} then r.status == Rejected
    else if Both(r.items) == r.items.Keys then r.status == Accepted
    else r.status == PartiallyAccepted
  }

  /** One side's mark on a product: there exactly when the side decided, and never in favour
      when it refused. */
  predicate MarkFits(said: Vote, mark: Vote) {
    (mark.Silent? <==> said.Silent?) && (said == No ==> mark == No)
  }

  function Outcome(r: Request, i: Item): Vote {
    if r.pastor == No || r.treasury == No then No
    else if r.pastor.Silent? || r.treasury.Silent? then Silent
    else Voted(i.pastor == Yes && i.treasury == Yes)
  }

  predicate ItemFits(r: Request, i: Item) {
    MarkFits(r.pastor, i.pastor) && MarkFits(r.treasury, i.treasury) && i.accepted == Outcome(r, i)
  }

  predicate Inv(r: Request) {
    StatusFits(r) && forall p :: p in r.items ==> ItemFits(r, r.items[p])
  }

  lemma Whole(part: set<Product>, all: set<Product>)
    requires part <= all
    ensures |part| == |all| <==> part == all
    ensures |part| == 0 <==> part == {}
  {
    assert all == part + (all - part);
  }

  lemma MarksFit(r: Request, s: Side, d: Decision, p: Product)
    requires Inv(r) && Refused(r, s, d).None? && p in r.items
    ensures ItemFits(Written(r, s, d), Written(r, s, d).items[p])
  {
    assert ItemFits(r, r.items[p]);
  }

  lemma CommonIsBoth(r: Request, s: Side, d: Decision)
    requires Inv(r) && Refused(r, s, d).None?
    requires d.approve && Said(r, Other(s)) == Yes
    ensures InCommon(r, s, d) == Both(Written(r, s, d).items)
  {
    var items := Written(r, s, d).items;
    forall p | p in r.items
      ensures p in InCommon(r, s, d) <==> p in Both(items)
    {
      assert items[p] == Marked(r, s, d, p);
    }
  }

  lemma DecideKeeps(r: Request, s: Side, d: Decision)
    requires Inv(r) && Refused(r, s, d).None?
    ensures Inv(Written(r, s, d))
  {
    var w := Written(r, s, d);
    forall p | p in w.items
      ensures ItemFits(w, w.items[p])
    {
      MarksFit(r, s, d, p);
    }
    if d.approve && Said(r, Other(s)) == Yes {
      CommonIsBoth(r, s, d);
      assert w.items.Keys == r.items.Keys;
      Whole(Both(w.items), r.items.Keys);
    }
  }

  lemma ChangeKeeps(r: Request, m: Manual)
    requires Inv(r) && ChangeStatus(r, m).Success?
    ensures Inv(ChangeStatus(r, m).value)
  {
    var w := ChangeStatus(r, m).value;
    forall p | p in w.items
      ensures ItemFits(w, w.items[p])
    {
      assert ItemFits(r, r.items[p]);
    }
  }

  lemma StepKeeps(r: Request, op: Op)
    requires Inv(r)
    ensures Inv(Apply(r, op))
  {
    if Attempt(r, op).Success? {
      match op {
        case DoDecide(c, d) => DecideKeeps(r, SideOf(c, d.user).value, d);
        case DoChange(m) => ChangeKeeps(r, m);
      }
    }
  }

  lemma {:induction false} RunKeepsFrom(r: Request, ops: seq<Op>)
    requires Inv(r)
    ensures Inv(Run(r, ops))
  {
    if ops == [] {
    } else {
      RunKeepsFrom(r, ops[..|ops| - 1]);
      StepKeeps(Run(r, ops[..|ops| - 1]), ops[|ops| - 1]);
    }
  }

  /** In every state a request can reach, its status and the result of each product are the
      ones the two decisions and the marks call for. */
  lemma RunKeeps(products: set<Product>, ops: seq<Op>)
    ensures Inv(Run(Made(products), ops))
  {
    RunKeepsFrom(Made(products), ops);
  }

  /** A closed request stays exactly as it is. */
  lemma {:induction false} ClosedForGood(r: Request, ops: seq<Op>)
    requires Closed(r.status)
    ensures Run(r, ops) == r
  {
    if ops == [] {
    } else {
      ClosedForGood(r, ops[..|ops| - 1]);
    }
  }

  /** A request closes with what both approved, or with nothing as soon as one refuses: it is
      closed exactly when somebody refused or both decided. */
  lemma ClosedWhen(products: set<Product>, ops: seq<Op>)
    ensures var r := Run(Made(products), ops);
            Closed(r.status) <==> r.pastor == No || r.treasury == No || (!r.pastor.Silent? && !r.treasury.Silent?)
    ensures var r := Run(Made(products), ops);
            forall p :: p in r.items ==> (r.items[p].accepted.Silent? <==> !Closed(r.status))
  {
    RunKeeps(products, ops);
    var r := Run(Made(products), ops);
    forall p | p in r.items
      ensures r.items[p].accepted.Silent? <==> !Closed(r.status)
    {
      assert ItemFits(r, r.items[p]);
    }
  }

  // ---- the order does not matter -------------------------------------------

  /** The second decision, when there is still one to take. */
  function Then(r: Request, s: Side, d: Decision): Request {
    if Refused(r, s, d).None? then Written(r, s, d) else r
  }

  /** The result of two decisions, whoever speaks first. */
  function Agreed(r: Request, one: Decision, two: Decision, p: Product): bool {
    one.approve && two.approve && p in Chosen(r, one) && p in Chosen(r, two)
  }

  function AgreedSet(r: Request, one: Decision, two: Decision): set<Product> {
    set p | p in r.items && Agreed(r, one, two, p)
  }

  function AgreedStatus(r: Request, one: Decision, two: Decision): Status {
    if AgreedSet(r, one, two) == {} then Rejected
    else if AgreedSet(r, one, two) == r.items.Keys then Accepted
    else PartiallyAccepted
  }

  /** The request ends with what both approved, and nothing else, accepted. */
  predicate EndsAgreed(r: Request, one: Decision, two: Decision, end: Request) {
    && end.status == AgreedStatus(r, one, two) && end.items.Keys == r.items.Keys
    && forall p :: p in end.items ==> p in r.items && end.items[p].accepted == Voted(Agreed(r, one, two, p))
  }

  /** One side, then the other: what both approved, and nothing else, is accepted. */
  lemma TwoDecisions(r: Request, s: Side, one: Decision, two: Decision)
    requires Inv(r) && r.pastor.Silent? && r.treasury.Silent?
    requires Refused(r, s, one).None? && Refused(r, Other(s), two).None?
    ensures EndsAgreed(r, one, two, Then(Written(r, s, one), Other(s), two))
  {
    var first := Written(r, s, one);
    DecideKeeps(r, s, one);
    if one.approve {
      assert first.items.Keys == r.items.Keys;
      assert Refused(first, Other(s), two).None?;
      SecondDecision(r, s, one, two);
    } else {
      assert AgreedSet(r, one, two) == {};
    }
  }

  lemma SecondDecision(r: Request, s: Side, one: Decision, two: Decision)
    requires Inv(r) && r.pastor.Silent? && r.treasury.Silent? && one.approve
    requires Refused(r, s, one).None? && Refused(Written(r, s, one), Other(s), two).None?
    ensures EndsAgreed(r, one, two, Written(Written(r, s, one), Other(s), two))
  {
    var first := Written(r, s, one);
    var end := Written(first, Other(s), two);
    assert first.items.Keys == r.items.Keys && end.items.Keys == r.items.Keys;
    forall p | p in r.items
      ensures end.items[p].accepted == Voted(Agreed(r, one, two, p))
    {
      assert first.items[p] == Marked(r, s, one, p);
      assert end.items[p] == Marked(first, Other(s), two, p);
    }
    if two.approve {
      forall p | p in r.items
        ensures p in InCommon(first, Other(s), two) <==> p in AgreedSet(r, one, two)
      {
        assert end.items[p].accepted == Final(first, Other(s), two, p);
      }
      assert InCommon(first, Other(s), two) == AgreedSet(r, one, two);
      Whole(AgreedSet(r, one, two), r.items.Keys);
    } else {
      assert AgreedSet(r, one, two) == {};
    }
  }

  lemma AgreedEitherWay(r: Request, one: Decision, two: Decision, end: Request)
    ensures EndsAgreed(r, one, two, end) ==> EndsAgreed(r, two, one, end)
  {
    assert AgreedSet(r, one, two) == AgreedSet(r, two, one);
  }

  /** Same status, same products, same result for each. */
  predicate SameEnd(a: Request, b: Request) {
    && a.status == b.status && a.items.Keys == b.items.Keys
    && forall p :: p in a.items && p in b.items ==> a.items[p].accepted == b.items[p].accepted
  }

  /** Pastor first or treasury first, the request ends in the same status with the same
      result for every product. */
  lemma OrderIndependent(r: Request, one: Decision, two: Decision)
    requires Inv(r) && r.pastor.Silent? && r.treasury.Silent?
    requires Refused(r, Pastor, one).None? && Refused(r, Treasury, two).None?
    ensures SameEnd(Then(Written(r, Pastor, one), Treasury, two), Then(Written(r, Treasury, two), Pastor, one))
  {
    TwoDecisions(r, Pastor, one, two);
    TwoDecisions(r, Treasury, two, one);
    AgreedEitherWay(r, two, one, Then(Written(r, Treasury, two), Pastor, one));
  }

  // ---- two people ----------------------------------------------------------

  /** Who decided had that side in a church led by `leader`. */
  predicate Sided(leader: Option<User>, r: Request) {
    && (r.pastorId.Some? ==> leader == r.pastorId)
    && (r.treasurerId.Some? ==> leader != r.treasurerId)
    && (r.pastorId.Some? <==> !r.pastor.Silent?)
    && (r.treasurerId.Some? <==> !r.treasury.Silent?)
  }

  predicate LedBy(op: Op, leader: Option<User>) {
    op.DoDecide? ==> op.c.leader == leader
  }

  lemma {:induction false} SidesKept(products: set<Product>, ops: seq<Op>, leader: Option<User>)
    requires forall k :: 0 <= k < |ops| ==> LedBy(ops[k], leader)
    ensures Sided(leader, Run(Made(products), ops))
  {
    if ops == [] {
    } else {
      var n := |ops| - 1;
      SidesKept(products, ops[..n], leader);
      assert LedBy(ops[n], leader);
    }
  }

  /** While the church keeps its leader, nothing is accepted without two different people. */
  lemma TwoPeople(products: set<Product>, ops: seq<Op>, leader: Option<User>)
    requires forall k :: 0 <= k < |ops| ==> LedBy(ops[k], leader)
    requires Run(Made(products), ops).status in {Accepted, PartiallyAccepted}
    ensures var r := Run(Made(products), ops); r.pastorId.Some? && r.treasurerId.Some? && r.pastorId != r.treasurerId
  {
    SidesKept(products, ops, leader);
    RunKeeps(products, ops);
  }

  // ---- who decided ---------------------------------------------------------

  /** The `k`-th operation is a decision of `u` for the side, in the church of that moment,
      and it was not refused. */
  predicate DecidesAt(r: Request, ops: seq<Op>, k: nat, s: Side, u: User) {
    && k < |ops| && ops[k].DoDecide? && ops[k].d.user == u
    && SideOf(ops[k].c, u) == Some(s)
    && Refused(Run(r, ops[..k]), s, ops[k].d).None?
  }

  ghost predicate DecidedFor(r: Request, ops: seq<Op>, s: Side, u: User) {
    exists k :: DecidesAt(r, ops, k, s, u)
  }

  function Decider(r: Request, s: Side): Option<User> {
    if s.Pastor? then r.pastorId else r.treasurerId
  }

  /** Each side that decided is signed, and no other. */
  predicate Signed(r: Request) {
    && (r.pastorId.Some? <==> !r.pastor.Silent?)
    && (r.treasurerId.Some? <==> !r.treasury.Silent?)
  }

  lemma DecidesEarlier(r: Request, ops: seq<Op>, s: Side, u: User)
    requires ops != []
    ensures var n := |ops| - 1;
            DecidedFor(r, ops, s, u) <==> DecidedFor(r, ops[..n], s, u) || DecidesAt(r, ops, n, s, u)
  {
    var n := |ops| - 1;
    forall k | 0 <= k < n
      ensures DecidesAt(r, ops, k, s, u) <==> DecidesAt(r, ops[..n], k, s, u)
    {
      assert ops[..n][..k] == ops[..k];
    }
    if DecidedFor(r, ops[..n], s, u) {
      var k :| DecidesAt(r, ops[..n], k, s, u);
      assert DecidesAt(r, ops, k, s, u);
    }
  }

  lemma StepSigns(r: Request, op: Op, s: Side, u: User)
    requires Signed(r)
    ensures Signed(Apply(r, op))
    ensures Decider(Apply(r, op), s) == Some(u) <==>
            Decider(r, s) == Some(u)
            || (op.DoDecide? && op.d.user == u && SideOf(op.c, u) == Some(s) && Refused(r, s, op.d).None?)
  {
  }

  /** The signature of a side is of whoever decided for it, in a church where that was their
      side. */
  lemma {:induction false} SignedBy(r: Request, ops: seq<Op>, s: Side, u: User)
    requires Signed(r) && r.pastor.Silent? && r.treasury.Silent?
    ensures Signed(Run(r, ops))
    ensures Decider(Run(r, ops), s) == Some(u) <==> DecidedFor(r, ops, s, u)
  {
    if ops == [] {
    } else {
      var n := |ops| - 1;
      SignedBy(r, ops[..n], s, u);
      DecidesEarlier(r, ops, s, u);
      StepSigns(Run(r, ops[..n]), ops[n], s, u);
    }
  }

  /** Over every run that ends accepted: one person decided for both sides exactly when
      somebody approved for the treasury in a church they did not lead, and for the pastor in
      one they led. */
  lemma OnePersonExactly(products: set<Product>, ops: seq<Op>)
    requires Run(Made(products), ops).status in {Accepted, PartiallyAccepted}
    ensures var r := Run(Made(products), ops);
            r.pastorId == r.treasurerId <==> exists u: User :: BothSides(products, ops, u)
  {
    var r := Run(Made(products), ops);
    RunKeeps(products, ops);
    forall u: User
      ensures r.pastorId == Some(u) <==> DecidedFor(Made(products), ops, Pastor, u)
      ensures r.treasurerId == Some(u) <==> DecidedFor(Made(products), ops, Treasury, u)
      ensures Signed(r)
    {
      SignedBy(Made(products), ops, Pastor, u);
      SignedBy(Made(products), ops, Treasury, u);
    }
    SignedBy(Made(products), ops, Pastor, 0);
    if r.pastorId == r.treasurerId {
      assert BothSides(products, ops, r.pastorId.value);
    }
  }

  /** `u` led the church when deciding as the pastor, and did not when deciding as a treasurer. */
  ghost predicate BothSides(products: set<Product>, ops: seq<Op>, u: User) {
    DecidedFor(Made(products), ops, Treasury, u) && DecidedFor(Made(products), ops, Pastor, u)
  }

  /** The church may change its leader and the request still take two people. */
  lemma NewLeaderTwoPeople(p: Product)
    ensures var yes, also := Decision(1, true, None), Decision(3, true, None);
            var r := Run(Made({p}), [DoDecide(Church(Some(2), {1}), yes), DoDecide(Church(Some(3), {}), also)]);
            r.status == Accepted && r.pastorId == Some(3) && r.treasurerId == Some(1)
  {
    var yes, also := Decision(1, true, None), Decision(3, true, None);
    TwoSteps(p, DoDecide(Church(Some(2), {1}), yes), DoDecide(Church(Some(3), {}), also));
  }

  /** Treasury first and pastor second, each approving the only product. */
  lemma TwoSteps(p: Product, one: Op, two: Op)
    requires one.DoDecide? && SideOf(one.c, one.d.user) == Some(Treasury) && one.d.approve && one.d.chosen.None?
    requires two.DoDecide? && SideOf(two.c, two.d.user) == Some(Pastor) && two.d.approve && two.d.chosen.None?
    ensures var r := Run(Made({p}), [one, two]);
            r.status == Accepted && r.pastorId == Some(two.d.user) && r.treasurerId == Some(one.d.user)
  {
    var ops := [one, two];
    var made := Made({p});
    assert ops[..1][..0] == [] && ops[..|ops| - 1] == ops[..1];
    assert made.items.Keys == {p};
    assert Run(made, ops[..1]) == Written(made, Treasury, one.d);
    RunKeeps({p}, []);
    TwoDecisions(made, Treasury, one.d, two.d);
    assert AgreedSet(made, one.d, two.d) == {p};
    assert Refused(Written(made, Treasury, one.d), Pastor, two.d).None? by {
      assert Written(made, Treasury, one.d).items.Keys == {p};
    }
  }

  /** A treasurer who becomes the leader in between decides for both sides. */
  lemma OnePersonTwice(u: User, p: Product)
    ensures var yes := Decision(u, true, None);
            var r := Run(Made({p}), [DoDecide(Church(None, {u}), yes), DoDecide(Church(Some(u), {}), yes)]);
            r.status == Accepted && r.pastorId == Some(u) && r.treasurerId == Some(u)
  {
    var yes := Decision(u, true, None);
    TwoSteps(p, DoDecide(Church(None, {u}), yes), DoDecide(Church(Some(u), {}), yes));
  }

  // ---- a status written late -----------------------------------------------

  /** What was read lets the status be written: it is another one, and nobody had decided. */
  predicate Writes(r: Request, m: Manual) {
    Wanted(r, m) != r.status && Untouched(r.status)
  }

  /** The write of `mudarStatus` after reading `r`. */
  function LateWrite(r: Request, m: Manual, now: Request): Request {
    if Writes(r, m) then now.(status := Wanted(r, m)) else now
  }

  /** `mudarStatus` reads the status and writes it in two steps, without a lock. When other
      operations come in between, the request stays as the decisions call for exactly when
      nothing is written, or none of them was a decision that counted; otherwise even a closed
      request is open again. */
  lemma LateStatus(r: Request, m: Manual, between: seq<Op>)
    requires Inv(r) && Signed(r)
    ensures Inv(LateWrite(r, m, Run(r, between))) <==>
            !Writes(r, m) || forall k, s, u :: !DecidesAt(r, between, k, s, u)
  {
    RunKeepsFrom(r, between);
    if Writes(r, m) {
      LateChange(r, m, between);
    }
  }

  lemma LateChange(r: Request, m: Manual, between: seq<Op>)
    requires Inv(r) && Signed(r) && Writes(r, m)
    ensures Inv(LateWrite(r, m, Run(r, between))) <==> forall k, s, u :: !DecidesAt(r, between, k, s, u)
  {
    var now := Run(r, between);
    var late := LateWrite(r, m, now);
    RunKeepsFrom(r, between);
    forall p | p in late.items
      ensures ItemFits(late, late.items[p])
    {
      assert ItemFits(now, now.items[p]);
    }
    forall s: Side, u: User
      ensures Decider(now, s) == Some(u) <==> DecidedFor(r, between, s, u)
    {
      SignedBy(r, between, s, u);
    }
    SignedBy(r, between, Pastor, 0);
    assert Decider(now, Pastor) == now.pastorId && Decider(now, Treasury) == now.treasurerId;
    if now.pastorId.Some? {
      assert DecidedFor(r, between, Pastor, now.pastorId.value);
    }
    if now.treasurerId.Some? {
      assert DecidedFor(r, between, Treasury, now.treasurerId.value);
    }
    if k: nat, s: Side, u: User :| DecidesAt(r, between, k, s, u) {
      assert DecidedFor(r, between, s, u);
      assert Decider(now, s) == Some(u);
    }
  }

  /** It does happen: refused by the pastor between the reading and the writing, the request
      is under review again. */
  lemma ReopenedByHand(u: User, p: Product)
    ensures var made := Made({p});
            var now := Run(made, [DoDecide(Church(Some(u), {}), Decision(u, false, None))]);
            && now.status == Rejected
            && LateWrite(made, PutInReview, now).status == InReview
            && !Inv(LateWrite(made, PutInReview, now))
  {
    var made := Made({p});
    var ops := [DoDecide(Church(Some(u), {}), Decision(u, false, None))];
    assert ops[..|ops| - 1] == [];
    assert Run(made, ops) == Written(made, Pastor, ops[0].d);
  }

  // ---- the service ---------------------------------------------------------

  class RequestDesk {
    var request: Request

    constructor (products: set<Product>)
      ensures request == Made(products)
    {
      request := Made(products);
    }

    /** The loop over the items: what this side says of each, and the result. */
    method MarkItems(s: Side, d: Decision)
      modifies this
      ensures request == old(request).(items := map p | p in old(request).items :: Marked(old(request), s, d, p))
    {
      var was := request;
      var left := was.items.Keys;
      while left != {}
        invariant left <= was.items.Keys && request.items.Keys == was.items.Keys
        invariant request == was.(items := request.items)
        invariant forall p :: p in left ==> request.items[p] == was.items[p]
        invariant forall p :: p in was.items.Keys - left ==> request.items[p] == Marked(was, s, d, p)
        decreases |left|
      {
        var p :| p in left;
        request := request.(items := request.items[p := Marked(was, s, d, p)]);
        left := left - {p};
      }
      assert request.items == map p | p in was.items :: Marked(was, s, d, p);
    }

    /** `decidir`, with the row of the request locked: the items one by one, then the request. */
    method DecideOn(c: Church, d: Decision) returns (refusal: Option<Refusal>)
      modifies this
      ensures request == Apply(old(request), DoDecide(c, d))
      ensures refusal.None? <==> Decide(c, old(request), d).Success?
      ensures refusal.Some? ==> Decide(c, old(request), d) == Failure(refusal.value)
    {
      var side := SideOf(c, d.user);
      if side.None? {
        return Some(NoSide);
      }
      refusal := Refused(request, side.value, d);
      if refusal.Some? {
        return;
      }
      var status := NextStatus(request, side.value, d);
      MarkItems(side.value, d);
      if side.value.Pastor? {
        request := request.(status := status, pastor := Voted(d.approve), pastorId := Some(d.user));
      } else {
        request := request.(status := status, treasury := Voted(d.approve), treasurerId := Some(d.user));
      }
      return None;
    }

    method ChangeByHand(m: Manual) returns (refusal: Option<Refusal>)
      modifies this
      ensures request == Apply(old(request), DoChange(m))
      ensures refusal.None? <==> ChangeStatus(old(request), m).Success?
    {
      var changes := Wanted(request, m) != request.status;
      if changes && !Untouched(request.status) {
        return Some(InTheirHands);
      }
      if changes {
        request := request.(status := Wanted(request, m));
      }
      return None;
    }
  }
}
