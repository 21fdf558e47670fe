/**
 * The track graph (pkg/core/node.go, pkg/core/track.go) and the way a reconnect moves senders from the
 * receivers of a dead connection to those of a new one (internal/streams/producer.go).
 */
module TrackGraph {
  import opened Wrappers
  import opened Sequences

  const CODEC_ALL := "ALL"
  const CODEC_ANY := "ANY"

  /** `id` is the identity of the codec object; the rest is what Match compares. */
  datatype Codec = Codec(id: nat, name: string, clockRate: nat, channels: nat) {
    predicate Match(remote: Codec) {
      || remote.name == CODEC_ALL
      || remote.name == CODEC_ANY
      || (name == remote.name
          && (clockRate == remote.clockRate || remote.clockRate == 0)
          && (channels == remote.channels || remote.channels == 0))
    }
  }

  /** Wildcards match everything; a zero rate or channel count of the remote leaves that open; the rest is equality. */
  lemma MatchIff(c: Codec, remote: Codec)
    ensures remote.name in {"ALL", "ANY"} ==> c.Match(remote)
    ensures remote.name !in {"ALL", "ANY"} && remote.clockRate > 0 && remote.channels > 0 ==>
              (c.Match(remote) <==> c == remote.(id := c.id))
    ensures remote.name !in {"ALL", "ANY"} ==>
              (c.Match(remote.(clockRate := 0)) <==> c.Match(remote.(clockRate := c.clockRate)))
              && (c.Match(remote.(channels := 0)) <==> c.Match(remote.(channels := c.channels)))
  {
  }

  function MatchCodec(codecs: seq<Codec>, remote: Codec): (r: Option<Codec>)
    ensures r.Some? ==> r.value in codecs && r.value.Match(remote)
    ensures r.None? ==> forall c <- codecs :: !c.Match(remote)
  {
    if codecs == [] then None
    else if codecs[0].Match(remote) then Some(codecs[0])
    else MatchCodec(codecs[1..], remote)
  }

  /**
   * Closing a root ranges over a slice that every closed child edits in place: `view` is the array
   * behind that slice, in which a removal shifts the later children one place left.
   */
  function CloseAll<T(==)>(childs: seq<T>, view: seq<T>, i: nat): seq<T>
    requires |childs| <= |view|
    decreases |view| - i
  {
    if i >= |view| then childs
    else
      var left := Without(childs, view[i]);
      WithoutShrinks(childs, view[i]);
      CloseAll(left, left + view[|left|..], i + 1)
  }

  lemma CloseAllTurnsOnce<T>(childs: seq<T>, view: seq<T>, i: nat)
    requires i < |view| && |childs| <= |view|
    ensures var left := Without(childs, view[i]);
            && |left| <= |childs| && (view[i] in childs ==> |left| < |childs|)
            && CloseAll(childs, view, i) == CloseAll(left, left + view[|left|..], i + 1)
  {
    WithoutShrinks(childs, view[i]);
  }

  lemma ViewTurn<T>(childs: seq<T>, view: seq<T>, left: seq<T>)
    requires |left| <= |childs| <= |view| && view[..|childs|] == childs && forall c <- left :: c in childs
    ensures var view' := left + view[|left|..];
            |view'| == |view| && view'[..|left|] == left && forall c <- view' :: c in view
  {
    assert forall c <- childs :: c in view;
  }

  lemma CloseAllDone<T>(childs: seq<T>, view: seq<T>, i: nat)
    requires |childs| <= |view| <= i
    ensures CloseAll(childs, view, i) == childs
  {
  }

  class Node {
    const codec: Codec
    var childs: seq<Node>
    var parent: Node?

    constructor (codec: Codec)
      ensures this.codec == codec && childs == [] && parent == null
    {
      this.codec := codec;
      childs, parent := [], null;
    }

    method AppendChild(child: Node)
      modifies this`childs, child`parent
      ensures childs == old(childs) + [child] && child.parent == this
    {
      childs := childs + [child];
      child.parent := this;
    }

    method RemoveChild(child: Node)
      modifies this`childs
      ensures childs == Without(old(childs), child)
    {
      for i := 0 to |childs|
        invariant childs == old(childs) && child !in childs[..i]
      {
        if childs[i] == child {
          WithoutAt(childs, child, i);
          childs := childs[..i] + childs[i + 1..];
          return;
        }
      }
    }

    /**
     * `path` leads from the node to its root. A node with a parent leaves it, and so does every ancestor that is
     * thereby left without children.
     */
    method Close(ghost path: seq<Node>)
      requires path != [] && path[0] == this && IsPath(path)
      requires parent == null ==> forall c <- childs :: c != this && c.parent == this
      modifies (if parent == null then {this} else Nodes(path[1..]))`childs
      ensures parent != null ==>
                ChildLists(path) == Climbed(old(ChildLists(path)), path, 1)
      ensures parent == null ==> childs == CloseAll(old(childs), old(childs), 0)
      decreases if parent != null then 1 else if childs == [] then 0 else 2, |path|, 1
    {
      if parent != null {
        Leave(path);
      } else {
        CloseChildren();
      }
    }

    method Leave(ghost path: seq<Node>)
      requires |path| > 1 && path[0] == this && IsPath(path)
      modifies Nodes(path[1..])`childs
      ensures ChildLists(path) == Climbed(old(ChildLists(path)), path, 1)
      decreases 1, |path|, 0
    {
      PathTail(path);
      hide CloseAll, Climbed, IsPath, ChildLists, Without;
      ghost var rest := path[1..];
      var up := parent;
      assert up == rest[0] && up in rest;
      JoinLists(path);
      JoinLists(rest);
      ClimbedLeaving(childs, up.childs, ChildLists(rest[1..]), path);
      up.RemoveChild(this);
      JoinLists(rest);
      if |up.childs| == 0 {
        up.Close(rest);
        if |path| == 2 {
          NothingToClose<Node>();
          JoinLists(rest);
          ClimbedOut(ChildLists(rest), rest, 1);
        }
      }
      JoinLists(path);
    }

    method CloseChildren()
      requires parent == null && forall c <- childs :: c != this && c.parent == this
      modifies this`childs
      ensures childs == CloseAll(old(childs), old(childs), 0)
      decreases if childs == [] then 0 else 2, 1, 0
    {
      hide Climbed, CloseAll, Without, IsPath, ChildLists, NoDuplicates, Nodes;
      var view := childs;
      ghost var left := CloseAll(childs, view, 0);
      for i := 0 to |view|
        invariant |childs| <= |view| == |old(childs)| && view[..|childs|] == childs
        invariant forall c <- view :: c != this && c.parent == this
        invariant CloseAll(childs, view, i) == left
      {
        var child := view[i];
        assert child in view;
        CloseAllTurnsOnce(childs, view, i);
        ghost var pair, was := [child, this], childs;
        PairPath(child, this);
        ClimbedTwo(child.childs, childs, child, this);
        child.Close(pair);
        PairPath(child, this);
        ViewTurn(was, view, childs);
        view := childs + view[|childs|..];
      }
      CloseAllDone(childs, view, |view|);
    }
  }

  ghost function Nodes(s: seq<Node>): set<Node> {
    set n <- s
  }

  /** From a node along its parents to a root, never twice through the same node. */
  ghost predicate IsPath(path: seq<Node>)
    reads path
  {
    && NoDuplicates(path)
    && (forall i, j :: 0 <= i < j == i + 1 < |path| ==> path[i].parent == path[j])
    && (path != [] ==> path[|path| - 1].parent == null)
  }

  ghost function ChildLists(path: seq<Node>): seq<seq<Node>>
    reads path
  {
    seq(|path|, k requires 0 <= k < |path| reads path => path[k].childs)
  }

  /** The child lists along a path once node `k - 1` left node `k`, and so on upwards while nothing is left. */
  ghost function Climbed<T>(lists: seq<seq<T>>, path: seq<T>, k: nat): (r: seq<seq<T>>)
    requires |lists| == |path| && 1 <= k
    ensures |r| == |path|
    decreases |path| - k
  {
    if k >= |path| then lists
    else
      var left := Without(lists[k], path[k - 1]);
      if left == [] then Climbed(lists[k := left], path, k + 1) else lists[k := left]
  }

  /**
   * Who loses a child when the first node of the path leaves: its parent, and each further ancestor exactly if
   * every node below it, from the parent on, was left without children.
   */
  lemma {:induction false} ClimbedIs<T>(lists: seq<seq<T>>, path: seq<T>, k: nat, i: nat)
    requires |lists| == |path| && 1 <= k && i < |path|
    ensures Climbed(lists, path, k)[i] ==
            if k <= i && forall j :: k <= j < i ==> Without(lists[j], path[j - 1]) == []
            then Without(lists[i], path[i - 1]) else lists[i]
    decreases |path| - k
  {
    hide Without;
    if k < |path| {
      var left := Without(lists[k], path[k - 1]);
      var next := lists[k := left];
      if left == [] {
        ClimbedIs(next, path, k + 1, i);
        assert forall j :: k < j < |path| ==> next[j] == lists[j];
        assert (forall j :: k <= j < i ==> Without(lists[j], path[j - 1]) == [])
          <==> forall j :: k + 1 <= j < i ==> Without(next[j], path[j - 1]) == [];
      } else if k < i {
        assert Without(lists[k], path[k - 1]) != [];
      }
    }
  }

  lemma NothingToClose<T>()
    ensures CloseAll<T>([], [], 0) == []
  {
  }

  lemma ClimbedOut<T>(lists: seq<seq<T>>, path: seq<T>, k: nat)
    requires |lists| == |path| <= k && 1 <= k
    ensures Climbed(lists, path, k) == lists
  {
  }

  lemma JoinLists(path: seq<Node>)
    requires path != []
    ensures ChildLists(path) == [path[0].childs] + ChildLists(path[1..]) && |ChildLists(path)| == |path|
  {
  }

  lemma PairPath(child: Node, root: Node)
    requires child != root && child.parent == root && root.parent == null
    ensures IsPath([child, root]) && Nodes([child, root][1..]) == {root}
    ensures ChildLists([child, root]) == [child.childs, root.childs]
  {
  }

  lemma PathTail(path: seq<Node>)
    requires IsPath(path) && |path| > 1
    ensures IsPath(path[1..]) && path[0].parent == path[1]
    ensures path[0] !in path[1..] && path[1] !in path[1..][1..]
    ensures path[1].parent == if |path| == 2 then null else path[2]
  {
    assert forall i :: 0 <= i < |path| - 1 ==> path[1..][i] == path[i + 1];
  }

  /** A child of a root takes only itself away. */
  lemma ClimbedTwo<T>(own: seq<T>, childs: seq<T>, child: T, root: T)
    ensures Climbed([own, childs], [child, root], 1)[1] == Without(childs, child)
  {
    var left := Without(childs, child);
    assert [own, childs][1 := left] == [own, left];
  }

  lemma {:induction false} ClimbedShift<T>(lists: seq<seq<T>>, path: seq<T>, k: nat)
    requires |lists| == |path| && 1 <= k && path != []
    ensures Climbed(lists, path, k + 1) == [lists[0]] + Climbed(lists[1..], path[1..], k)
    decreases |path| - k
  {
    if k + 1 < |path| {
      var left := Without(lists[k + 1], path[k]);
      var next := lists[k + 1 := left];
      assert next[1..] == lists[1..][k := left] && next[0] == lists[0];
      if left == [] {
        ClimbedShift(next, path, k + 1);
      }
    }
  }

  /** Leaving the parent: the lists are those of the node, of its parent and of the path above. */
  lemma ClimbedLeaving<T>(own: seq<T>, childs: seq<T>, above: seq<seq<T>>, path: seq<T>)
    requires |path| == |above| + 2
    ensures var left := Without(childs, path[0]);
            Climbed([own] + ([childs] + above), path, 1) ==
            if left == [] then [own] + Climbed([left] + above, path[1..], 1) else [own] + ([left] + above)
  {
    var lists := [own] + ([childs] + above);
    var left := Without(childs, path[0]);
    var next := [own] + ([left] + above);
    assert lists[1] == childs && lists[1 := left] == next;
    ClimbedShift(next, path, 1);
    assert next[1..] == [left] + above;
  }

  method MoveNode(dst: Node, src: Node)
    modifies src`childs, dst`childs, (set c <- src.childs)`parent
    ensures dst.childs == old(src.childs)
    ensures dst != src ==> src.childs == []
    ensures forall c <- old(src.childs) :: c.parent == dst
  {
    var childs := src.childs;
    src.childs := [];
    dst.childs := childs;
    for i := 0 to |childs|
      invariant dst.childs == childs && (dst != src ==> src.childs == [])
      invariant forall c <- childs[..i] :: c.parent == dst
    {
      childs[i].parent := dst;
    }
  }

  /** One turn of the loop that closes the child at position `k`. */
  lemma CloseStep<T>(childs: seq<T>, view: seq<T>, i: nat, k: nat, left: seq<T>)
    requires NoDuplicates(childs) && k < |childs| <= |view| && i < |view| && view[i] == childs[k]
    requires left == childs[..k] + childs[k + 1..]
    ensures CloseAll(childs, view, i) == CloseAll(left, left + view[|left|..], i + 1)
  {
    WithoutAt(childs, childs[k], k);
  }

  /** Before turn `i`: `i` children were kept, the rest follow, and behind them repeats of the last one. */
  ghost predicate Shifted<T>(childs: seq<T>, i: nat, view: seq<T>, last: T) {
    && NoDuplicates(childs) && childs != [] && last == childs[|childs| - 1]
    && i <= |childs| <= |view| && i < |view| && view[..|childs|] == childs
    && forall j :: |childs| <= j < |view| ==> view[j] == last
  }

  lemma ShiftedAt<T>(childs: seq<T>, i: nat, view: seq<T>, last: T)
    requires Shifted(childs, i, view, last)
    ensures view[i] == childs[if i == |childs| then i - 1 else i]
    ensures |childs| <= |view| && i <= |childs| && NoDuplicates(childs)
  {
    if i < |childs| {
      assert view[..|childs|][i] == childs[i];
    }
  }

  lemma LastLeft<T>(childs: seq<T>, i: nat, view: seq<T>, last: T)
    requires Shifted(childs, i, view, last) && |childs| <= i + 1
    ensures CloseAll(childs[..|childs| - 1], childs[..|childs| - 1] + view[|childs| - 1..], i + 1) == childs[..|childs| - 1]
  {
    hide CloseAll;
    var left := childs[..|childs| - 1];
    TailKept(left, view, i + 1, last);
    CloseAllIgnores(left, left + view[|left|..], i + 1, last);
  }

  lemma {:induction false} CloseAllSkips<T>(childs: seq<T>, i: nat, view: seq<T>, last: T)
    requires Shifted(childs, i, view, last)
    ensures |CloseAll(childs, view, i)| == i + (if |childs| == i then -1 else (|childs| - i - 1) / 2)
    decreases |childs| - i
  {
    hide CloseAll, NoDuplicates;
    ShiftedAt(childs, i, view, last);
    var k := if i == |childs| then i - 1 else i;
    var left := childs[..k] + childs[k + 1..];
    CloseStep(childs, view, i, k, left);
    if |childs| <= i + 1 {
      assert left == childs[..|childs| - 1];
      LastLeft(childs, i, view, last);
    } else {
      CloseAllTurn(childs, i, view, last, left);
      hide Shifted;
      CloseAllSkips(left, i + 1, left + view[|left|..], last);
    }
  }

  lemma CloseAllTurn<T>(childs: seq<T>, i: nat, view: seq<T>, last: T, left: seq<T>)
    requires Shifted(childs, i, view, last) && i + 1 < |childs|
    requires left == childs[..i] + childs[i + 1..]
    ensures Shifted(left, i + 1, left + view[|left|..], last)
  {
    forall a, b | 0 <= a < b < |left| ensures left[a] != left[b] {
      assert left[a] == childs[if a < i then a else a + 1];
      assert left[b] == childs[if b < i then b else b + 1];
    }
    assert view[..|childs|][|left|] == last;
  }

  lemma TailKept<T>(childs: seq<T>, view: seq<T>, i: nat, gone: T)
    requires |childs| <= i && |childs| <= |view| && forall j :: i <= j < |view| ==> view[j] == gone
    ensures var view' := childs + view[|childs|..];
            |view'| == |view| && forall j :: i <= j < |view'| ==> view'[j] == gone
  {
  }

  lemma {:induction false} CloseAllIgnores<T>(childs: seq<T>, view: seq<T>, i: nat, gone: T)
    requires |childs| <= i && |childs| <= |view| && gone !in childs
    requires forall j :: i <= j < |view| ==> view[j] == gone
    ensures CloseAll(childs, view, i) == childs
    decreases |view| - i
  {
    hide CloseAll;
    if i < |view| {
      CloseAllTurnsOnce(childs, view, i);
      TailKept(childs, view, i, gone);
      CloseAllIgnores(childs, childs + view[|childs|..], i + 1, gone);
    } else {
      CloseAllDone(childs, view, i);
    }
  }

  /**
   * Closing a root detaches about half of its children: of n distinct children (n - 1) / 2 stay attached.
   * So stopping a connection detaches every reader of a track exactly when it has at most two.
   */
  lemma CloseRootDetachesAllIffAtMostTwo<T>(childs: seq<T>)
    requires NoDuplicates(childs)
    ensures |CloseAll(childs, childs, 0)| == if childs == [] then 0 else (|childs| - 1) / 2
    ensures CloseAll(childs, childs, 0) == [] <==> |childs| <= 2
  {
    if childs != [] {
      CloseAllSkips(childs, 0, childs, childs[|childs| - 1]);
    }
  }

  // ---------------------------------------------------------------- reconnect

  datatype Media = Media(recvonly: bool, codecs: seq<Codec>)

  class Connection {
    const medias: seq<Media>
    var receivers: seq<Node>

    constructor (medias: seq<Media>)
      ensures this.medias == medias && receivers == []
    {
      this.medias := medias;
      receivers := [];
    }

    /** The track already handed out for this codec object, or a new one. */
    method GetTrack(codec: Codec) returns (track: Node)
      modifies this`receivers
      ensures track.codec == codec && track in receivers
      ensures if exists r <- old(receivers) :: r.codec == codec
              then receivers == old(receivers) && track in old(receivers)
              else receivers == old(receivers) + [track] && fresh(track) && track.childs == [] && track.parent == null
    {
      for i := 0 to |receivers|
        invariant forall r <- receivers[..i] :: r.codec != codec
      {
        if receivers[i].codec == codec {
          return receivers[i];
        }
      }
      track := new Node(codec);
      receivers := receivers + [track];
    }

    /** Connection.Stop, for the receivers: every one is closed as a root. */
    method Stop()
      requires NoDuplicates(receivers)
      requires forall r <- receivers :: r.parent == null && forall c <- r.childs :: c != r && c.parent == r
      modifies (set r <- receivers)`childs
      ensures forall i :: 0 <= i < |receivers| ==>
                receivers[i].childs == CloseAll(old(receivers[i].childs), old(receivers[i].childs), 0)
    {
      hide CloseAll;
      for i := 0 to |receivers|
        invariant forall k :: 0 <= k < i ==>
                    receivers[k].childs == CloseAll(old(receivers[k].childs), old(receivers[k].childs), 0)
        invariant forall k :: i <= k < |receivers| ==> receivers[k].childs == old(receivers[k].childs)
      {
        assert receivers[i] in receivers;
        receivers[i].Close([receivers[i]]);
      }
    }
  }

  /** Every child points back at its node and is listed once. */
  ghost predicate Consistent(nodes: seq<Node>)
    reads nodes, set n <- nodes, c <- n.childs :: c
  {
    forall n <- nodes :: NoDuplicates(n.childs) && forall c <- n.childs :: c.parent == n
  }

  /**
   * The new connection's medias match the old receivers one to one: media j finds a codec for receiver
   * pi[j] and for no other receiver, old or already moved, and no two medias offer the same codec object.
   */
  ghost predicate OneToOne(medias: seq<Media>, codecs: seq<Codec>, pi: seq<nat>): (r: bool)
    ensures r ==> |pi| == |medias| == |codecs| && forall j :: 0 <= j < |pi| ==> pi[j] < |codecs|
  {
    && |pi| == |medias| == |codecs| && NoDuplicates(pi)
    && (forall i :: 0 <= i < |codecs| ==> i in pi)
    && (forall j :: 0 <= j < |pi| ==> pi[j] < |codecs| && medias[j].recvonly
                                      && MatchCodec(medias[j].codecs, codecs[pi[j]]).Some?)
    && (forall j, k :: 0 <= j < |pi| && 0 <= k < |pi| && j != k ==>
          && MatchCodec(medias[j].codecs, codecs[pi[k]]).None?
          && MatchCodec(medias[j].codecs, Offered(medias, codecs, pi, k)).None?
          && Offered(medias, codecs, pi, j) != Offered(medias, codecs, pi, k))
  }

  ghost function Offered(medias: seq<Media>, codecs: seq<Codec>, pi: seq<nat>, j: nat): Codec
    requires j < |pi| && j < |medias| && pi[j] < |codecs| && MatchCodec(medias[j].codecs, codecs[pi[j]]).Some?
  {
    MatchCodec(medias[j].codecs, codecs[pi[j]]).value
  }

  ghost function Codecs(nodes: seq<Node>): seq<Codec> {
    seq(|nodes|, i requires 0 <= i < |nodes| => nodes[i].codec)
  }

  /** `n` has exactly these children, and they all point back at it. */
  ghost predicate Holds(n: Node, kids: seq<Node>)
    reads n, kids
  {
    n.childs == kids && forall c <- kids :: c.parent == n
  }

  ghost function Kids(nodes: seq<Node>): seq<seq<Node>>
    reads nodes
  {
    seq(|nodes|, i requires 0 <= i < |nodes| reads nodes => nodes[i].childs)
  }

  ghost function Union(kids: seq<seq<Node>>): (r: set<Node>)
    ensures forall i, c :: 0 <= i < |kids| && c in kids[i] ==> c in r
  {
    set i, c | 0 <= i < |kids| && c in kids[i] :: c
  }

  ghost predicate Disjoint(kids: seq<seq<Node>>) {
    forall a, b :: 0 <= a < |kids| && 0 <= b < |kids| && a != b ==> forall c <- kids[a] :: c !in kids[b]
  }

  /** Progress of the matching loops: the first `j` medias have moved their receiver's children. */
  ghost predicate Moved(conn: Connection, receivers: seq<Node>, moved: seq<Node>, pi: seq<nat>,
                        kids: seq<seq<Node>>, j: nat)
    reads conn, receivers, moved, Union(kids)
  {
    && OneToOne(conn.medias, Codecs(receivers), pi)
    && |moved| == |receivers| == |kids| && j <= |pi| && |conn.receivers| == j
    && forall k :: 0 <= k < |pi| ==> Slot(conn, receivers, moved, pi, kids, j, k)
  }

  ghost predicate Slot(conn: Connection, receivers: seq<Node>, moved: seq<Node>, pi: seq<nat>,
                       kids: seq<seq<Node>>, j: nat, k: nat)
    requires OneToOne(conn.medias, Codecs(receivers), pi)
    requires |moved| == |receivers| == |kids| && k < |pi| && |conn.receivers| == j
    reads conn, receivers, moved, Union(kids)
  {
    var m := moved[pi[k]];
    && Holds(m, kids[pi[k]])
    && if k < j then
         && conn.receivers[k] == m && m.codec == Offered(conn.medias, Codecs(receivers), pi, k)
         && receivers[pi[k]].childs == []
       else m == receivers[pi[k]]
  }

  /** `receiver.Replace(track)` with the track the connection hands out for `codec`. */
  method TakeOver(conn: Connection, src: Node, codec: Codec) returns (track: Node)
    requires forall r <- conn.receivers :: r.codec != codec
    modifies conn`receivers, src`childs, (set c <- src.childs)`parent
    ensures track.codec == codec && fresh(track) && conn.receivers == old(conn.receivers) + [track]
    ensures Holds(track, old(src.childs)) && src.childs == []
  {
    track := conn.GetTrack(codec);
    MoveNode(track, src);
  }

  /** The first track in play that the media can serve. */
  method FirstServed(tracks: seq<Node>, codecs: seq<Codec>) returns (i: nat)
    ensures i <= |tracks| && forall k :: 0 <= k < i ==> MatchCodec(codecs, tracks[k].codec).None?
    ensures i < |tracks| ==> MatchCodec(codecs, tracks[i].codec).Some?
  {
    for k := 0 to |tracks|
      invariant forall m :: 0 <= m < k ==> MatchCodec(codecs, tracks[m].codec).None?
    {
      if MatchCodec(codecs, tracks[k].codec).Some? {
        return k;
      }
    }
    return |tracks|;
  }

  /** Media `j` serves receiver `pi[j]`, which is still in place, and no other. */
  lemma ServesOnlyPi(conn: Connection, receivers: seq<Node>, moved: seq<Node>, pi: seq<nat>,
                     kids: seq<seq<Node>>, j: nat, i: nat)
    requires Moved(conn, receivers, moved, pi, kids, j) && j < |pi| && i < |moved|
    ensures pi[j] < |moved| == |receivers| && j < |conn.medias| && moved[pi[j]] == receivers[pi[j]]
    ensures MatchCodec(conn.medias[j].codecs, moved[i].codec).Some? <==> i == pi[j]
  {
    assert Slot(conn, receivers, moved, pi, kids, j, j);
    assert i in pi;
    var k :| 0 <= k < |pi| && pi[k] == i;
    assert Slot(conn, receivers, moved, pi, kids, j, k);
  }

  /** The recvonly half of reconnect's media loop. */
  method MatchMedias(conn: Connection, receivers: seq<Node>, ghost pi: seq<nat>, ghost kids: seq<seq<Node>>)
    returns (moved: seq<Node>)
    requires NoDuplicates(receivers) && Disjoint(kids) && Moved(conn, receivers, receivers, pi, kids, 0)
    requires forall r <- receivers :: r !in Union(kids)
    modifies conn`receivers, (set r <- receivers)`childs, Union(kids)`parent
    ensures Moved(conn, receivers, moved, pi, kids, |pi|)
    ensures forall t <- conn.receivers :: fresh(t)
  {
    hide CloseAll, MatchCodec;
    moved := receivers;
    for j := 0 to |conn.medias|
      invariant Moved(conn, receivers, moved, pi, kids, j)
      invariant forall t <- conn.receivers :: fresh(t)
    {
      ServesOnlyPi(conn, receivers, moved, pi, kids, j, pi[j]);
      var i := FirstServed(moved, conn.medias[j].codecs);
      if i < |moved| {
        ServesOnlyPi(conn, receivers, moved, pi, kids, j, i);
      }
      moved := MoveSlot(conn, receivers, moved, i, conn.medias[j].codecs, pi, kids, j);
    }
  }

  /** Reconnect: the receivers' children move over, then the previous connection is stopped. */
  method Reconnect(previous: Connection, conn: Connection, receivers: seq<Node>, ghost pi: seq<nat>)
    returns (moved: seq<Node>)
    requires NoDuplicates(receivers) && Consistent(receivers) && Disjoint(Kids(receivers))
    requires OneToOne(conn.medias, Codecs(receivers), pi) && conn.receivers == [] && conn != previous
    requires forall r <- previous.receivers :: r in receivers && r.parent == null
    requires NoDuplicates(previous.receivers)
    requires forall r <- receivers :: r !in Union(Kids(receivers))
    modifies conn`receivers, (set r <- receivers)`childs, Union(Kids(receivers))`parent
    ensures |moved| == |receivers| == |conn.receivers|
    ensures forall i :: 0 <= i < |receivers| ==>
              moved[i] in conn.receivers && fresh(moved[i]) && Holds(moved[i], old(receivers[i].childs))
    ensures NoDuplicates(moved) && forall t <- conn.receivers :: t in moved
    ensures forall i, c :: 0 <= i < |receivers| && c in old(receivers[i].childs) ==>
              forall t <- conn.receivers :: c in t.childs <==> t == moved[i]
    ensures forall r <- receivers :: r.childs == []
  {
    ghost var kids := Kids(receivers);
    MovedNone(conn, receivers, pi, kids);
    moved := MatchMedias(conn, receivers, pi, kids);
    MovedAll(conn, receivers, moved, pi, kids);
    MovedDistinct(conn, receivers, moved, pi, kids);
    hide OneToOne, CloseAll, MatchCodec, Moved;
    NothingToClose<Node>();
    previous.Stop();
    EveryChildOnce(conn, moved, kids);
  }

  lemma MovedNone(conn: Connection, receivers: seq<Node>, pi: seq<nat>, kids: seq<seq<Node>>)
    requires OneToOne(conn.medias, Codecs(receivers), pi) && conn.receivers == [] && Consistent(receivers)
    requires kids == Kids(receivers)
    ensures Moved(conn, receivers, receivers, pi, kids, 0)
  {
  }

  /** At the end of the loops every receiver's children hang from the receiver that took over. */
  lemma MovedAll(conn: Connection, receivers: seq<Node>, moved: seq<Node>, pi: seq<nat>, kids: seq<seq<Node>>)
    requires Moved(conn, receivers, moved, pi, kids, |pi|)
    ensures |moved| == |receivers| == |conn.receivers| == |kids|
    ensures forall i :: 0 <= i < |receivers| ==>
              moved[i] in conn.receivers && Holds(moved[i], kids[i]) && receivers[i].childs == []
  {
    forall i | 0 <= i < |receivers|
      ensures moved[i] in conn.receivers && Holds(moved[i], kids[i]) && receivers[i].childs == []
    {
      assert i in pi;
      var k :| 0 <= k < |pi| && pi[k] == i;
      assert Slot(conn, receivers, moved, pi, kids, |pi|, k);
    }
  }

  /** Each old receiver got a receiver of the new connection of its own, and none is left over. */
  lemma MovedDistinct(conn: Connection, receivers: seq<Node>, moved: seq<Node>, pi: seq<nat>, kids: seq<seq<Node>>)
    requires Moved(conn, receivers, moved, pi, kids, |pi|) && NoDuplicates(receivers) && Disjoint(kids)
    ensures NoDuplicates(moved) && forall t <- conn.receivers :: t in moved
  {
    forall a, b | 0 <= a < b < |moved|
      ensures moved[a] != moved[b]
    {
      assert a in pi && b in pi;
      var j :| 0 <= j < |pi| && pi[j] == a;
      var k :| 0 <= k < |pi| && pi[k] == b;
      assert Slot(conn, receivers, moved, pi, kids, |pi|, j) && Slot(conn, receivers, moved, pi, kids, |pi|, k);
    }
    forall t | t in conn.receivers
      ensures t in moved
    {
      var k :| 0 <= k < |conn.receivers| && conn.receivers[k] == t;
      assert Slot(conn, receivers, moved, pi, kids, |pi|, k);
    }
  }

  /** So every sender hangs from exactly one receiver of the new connection. */
  lemma EveryChildOnce(conn: Connection, moved: seq<Node>, kids: seq<seq<Node>>)
    requires |moved| == |kids| && Disjoint(kids) && NoDuplicates(moved)
    requires forall i :: 0 <= i < |moved| ==> moved[i].childs == kids[i]
    requires forall t <- conn.receivers :: t in moved
    ensures forall i, c :: 0 <= i < |kids| && c in kids[i] ==>
              forall t <- conn.receivers :: c in t.childs <==> t == moved[i]
  {
    forall i, c, t | 0 <= i < |kids| && c in kids[i] && t in conn.receivers
      ensures c in t.childs <==> t == moved[i]
    {
      var k :| 0 <= k < |moved| && moved[k] == t;
    }
  }

  method MoveSlot(conn: Connection, receivers: seq<Node>, before: seq<Node>, i: nat, codecs: seq<Codec>,
                  ghost pi: seq<nat>, ghost kids: seq<seq<Node>>, ghost j: nat)
    returns (moved: seq<Node>)
    requires NoDuplicates(receivers) && Disjoint(kids) && Moved(conn, receivers, before, pi, kids, j)
    requires j < |pi| && codecs == conn.medias[j].codecs && i == pi[j] && before[i] == receivers[i]
    requires forall r <- receivers :: r !in conn.receivers && r !in Union(kids)
    requires forall t <- conn.receivers :: t !in Union(kids)
    modifies conn`receivers, (set r <- receivers)`childs, Union(kids)`parent
    ensures Moved(conn, receivers, moved, pi, kids, j + 1)
    ensures exists t :: conn.receivers == old(conn.receivers) + [t] && fresh(t)
  {
    var codec := MatchCodec(codecs, before[i].codec).value;
    assert Slot(conn, receivers, before, pi, kids, j, j);
    forall k | 0 <= k < j ensures conn.receivers[k].codec != codec {
      assert Slot(conn, receivers, before, pi, kids, j, k);
    }
    label Before:
    var track := TakeOver(conn, before[i], codec);
    moved := before[i := track];
    forall k {:trigger pi[k]} | 0 <= k < |pi|
      ensures Slot(conn, receivers, moved, pi, kids, j + 1, k)
    {
      assert old@Before(Slot(conn, receivers, before, pi, kids, j, k));
      if k != j {
        assert pi[k] != i && forall c <- kids[pi[k]] :: c !in kids[i];
      }
    }
  }
}
