/**
 * The skeleton overlay of one frame. For every user the tracker reports as
 * tracked, nine joints are projected to integer screen points and a fixed
 * partial stick figure of six segments is drawn over them. The projection
 * itself is the tracker's; its integer results are the inputs here.
 */
module Overlay {

  /** A projected joint position on the screen. */
  datatype Point = Point(x: int, y: int)

  /** The joints the overlay projects, in the order it projects them. */
  datatype Joint =
    | Head | Neck | RightCollar | RightElbow | RightHand | Torso
    | LeftCollar | LeftElbow | LeftHand

  /** One user's nine projected joints. */
  datatype Skeleton = Skeleton(
    head: Point, neck: Point, rightCollar: Point, rightElbow: Point, rightHand: Point,
    torso: Point, leftCollar: Point, leftElbow: Point, leftHand: Point)

  /** A line segment to be drawn. */
  datatype Segment = Segment(from: Point, to: Point)

  /** What the tracker reports for one user in this frame. */
  datatype UserView = UserView(id: nat, tracking: bool, skeleton: Skeleton)

  /** The projected point of joint `j`. */
  function At(s: Skeleton, j: Joint): Point
  {
    match j
    case Head => s.head
    case Neck => s.neck
    case RightCollar => s.rightCollar
    case RightElbow => s.rightElbow
    case RightHand => s.rightHand
    case Torso => s.torso
    case LeftCollar => s.leftCollar
    case LeftElbow => s.leftElbow
    case LeftHand => s.leftHand
  }

  /** The left-side joints: projected, never drawn. */
  predicate IsLeft(j: Joint)
  {
    j == LeftCollar || j == LeftElbow || j == LeftHand
  }

  /** The drawn joint pairs, each as (first end, second end), in drawing order. */
  const Bones: seq<(Joint, Joint)> := [
    (Head, Neck),
    (RightCollar, Neck),
    (RightCollar, RightElbow),
    (RightHand, RightElbow),
    (Torso, Neck),
    (Torso, RightCollar)
  ]

  /** The segments drawn for one tracked user. */
  function StickFigure(s: Skeleton): (segs: seq<Segment>)
    ensures |segs| == |Bones| == 6
  {
    seq(|Bones|, i requires 0 <= i < |Bones| => Segment(At(s, Bones[i].0), At(s, Bones[i].1)))
  }

  /** The users the tracker reports as tracked, in reported order. */
  function Tracked(users: seq<UserView>): (r: seq<UserView>)
    ensures |r| <= |users|
    ensures forall u :: u in r <==> u in users && u.tracking
  {
    if users == [] then []
    else Tracked(users[..|users| - 1]) + (if users[|users| - 1].tracking then [users[|users| - 1]] else [])
  }

  /**
   * The segments drawn over the frame: none while the overlay is switched
   * off, otherwise the stick figure of every tracked user in reported order.
   */
  function Overlay(track: bool, users: seq<UserView>): (segs: seq<Segment>)
    ensures |segs| == if track then 6 * |Tracked(users)| else 0
  {
    if !track || users == [] then []
    else
      var last := users[|users| - 1];
      Overlay(track, users[..|users| - 1]) + (if last.tracking then StickFigure(last.skeleton) else [])
  }

  // ---------------------------------------------------------------------------
  // Lemmas
  // ---------------------------------------------------------------------------

  /** Bone `b` joins joints `x` and `y`, in either order. */
  predicate Joins(b: (Joint, Joint), x: Joint, y: Joint)
  {
    (b.0 == x && b.1 == y) || (b.0 == y && b.1 == x)
  }

  /**
   * The drawn topology, in drawing order: head-neck, neck-right collar,
   * right collar-right elbow, right elbow-right hand, neck-torso and
   * torso-right collar; no left-side joint takes part, and every other
   * joint does.
   */
  lemma BonesTopology()
    ensures |Bones| == 6
    ensures Joins(Bones[0], Head, Neck) && Joins(Bones[1], Neck, RightCollar)
    ensures Joins(Bones[2], RightCollar, RightElbow) && Joins(Bones[3], RightElbow, RightHand)
    ensures Joins(Bones[4], Neck, Torso) && Joins(Bones[5], Torso, RightCollar)
    ensures forall b :: b in Bones ==> !IsLeft(b.0) && !IsLeft(b.1) && b.0 != b.1
    ensures forall j: Joint :: !IsLeft(j) ==> exists k :: 0 <= k < |Bones| && (Bones[k].0 == j || Bones[k].1 == j)
  {
    forall j: Joint | !IsLeft(j)
      ensures exists k :: 0 <= k < |Bones| && (Bones[k].0 == j || Bones[k].1 == j)
    {
      match j
      case Head => assert Bones[0].0 == j;
      case Neck => assert Bones[0].1 == j;
      case RightCollar => assert Bones[1].0 == j;
      case RightElbow => assert Bones[2].1 == j;
      case RightHand => assert Bones[3].0 == j;
      case Torso => assert Bones[4].0 == j;
    }
  }

  /** The left collar, elbow and hand are projected but have no effect on what is drawn. */
  lemma LeftSideNotDrawn(s: Skeleton, lc: Point, le: Point, lh: Point)
    ensures StickFigure(s.(leftCollar := lc, leftElbow := le, leftHand := lh)) == StickFigure(s)
  {
    var t := s.(leftCollar := lc, leftElbow := le, leftHand := lh);
    BonesTopology();
    forall i | 0 <= i < 6
      ensures StickFigure(t)[i] == StickFigure(s)[i]
    {
      assert Bones[i] in Bones;
    }
  }

  /** Every drawn segment joins two of the six drawn joints of its user. */
  lemma SegmentEnds(s: Skeleton, k: nat)
    requires k < 6
    ensures exists a: Joint, b: Joint ::
      (!IsLeft(a) && !IsLeft(b) && a != b && StickFigure(s)[k] == Segment(At(s, a), At(s, b)))
  {
    BonesTopology();
    var a, b := Bones[k].0, Bones[k].1;
    assert Bones[k] in Bones;
    assert StickFigure(s)[k] == Segment(At(s, a), At(s, b));
  }

  /** With the overlay on, users that are not tracked add nothing. */
  lemma {:induction false} OverlayIsTrackedFigures(users: seq<UserView>)
    ensures Overlay(true, users) == Figures(Tracked(users))
  {
    if users != [] {
      var init := users[..|users| - 1];
      var last := users[|users| - 1];
      OverlayIsTrackedFigures(init);
      assert Overlay(true, users) == Overlay(true, init) + (if last.tracking then StickFigure(last.skeleton) else []);
      if last.tracking {
        assert Tracked(users) == Tracked(init) + [last];
        FiguresAppend(Tracked(init), last);
      } else {
        assert Tracked(users) == Tracked(init);
      }
    }
  }

  /** The stick figures of a list of users, concatenated in order. */
  function Figures(users: seq<UserView>): (segs: seq<Segment>)
    ensures |segs| == 6 * |users|
  {
    if users == [] then [] else Figures(users[..|users| - 1]) + StickFigure(users[|users| - 1].skeleton)
  }

  /** One more user appends its stick figure. */
  lemma FiguresAppend(users: seq<UserView>, u: UserView)
    ensures Figures(users + [u]) == Figures(users) + StickFigure(u.skeleton)
  {
    assert (users + [u])[..|users|] == users;
  }

  /** The k-th block of six segments is the stick figure of the k-th tracked user. */
  lemma {:induction false} FiguresBlock(users: seq<UserView>, k: nat)
    requires k < |users|
    ensures Figures(users)[6 * k .. 6 * k + 6] == StickFigure(users[k].skeleton)
  {
    var init := users[..|users| - 1];
    if k < |users| - 1 {
      FiguresBlock(init, k);
      assert Figures(users)[..6 * |init|] == Figures(init);
    }
  }

  /**
   * With the overlay on, the k-th block of six drawn segments is the stick
   * figure of the k-th tracked user, and nothing else is drawn.
   */
  lemma OverlayBlocks(users: seq<UserView>, k: nat)
    requires k < |Tracked(users)|
    ensures |Overlay(true, users)| == 6 * |Tracked(users)|
    ensures Overlay(true, users)[6 * k .. 6 * k + 6] == StickFigure(Tracked(users)[k].skeleton)
  {
    OverlayIsTrackedFigures(users);
    FiguresBlock(Tracked(users), k);
  }
}
