/** The discovery client's handlers on its mutable view, each proved to be Apply. */
module DiscoveryClient {
  import opened Bytes
  import opened Discovery

  /** An element of a decoded peer list: skipped when it is not an object, and a panic when the
      id, ip or port is missing or of the wrong type. */
  datatype RawPeer =
    | NotAnObject
    | Incomplete
    | Complete(id: Id, info: Info)

  datatype Outcome = Handled | Refused | Panicked

  /** The map the list denotes; a later duplicate wins. */
  function MapOf(list: seq<RawPeer>): map<Id, Info> {
    if list == [] then map[]
    else
      var n := |list| - 1;
      if list[n].Complete? then MapOf(list[..n])[list[n].id := list[n].info] else MapOf(list[..n])
  }

  predicate Names(p: RawPeer, id: Id) {
    p.Complete? && p.id == id
  }

  /** A peer's info is that of the last element that names it. */
  lemma {:induction false} LastElementCounts(list: seq<RawPeer>, i: nat, id: Id)
    requires i < |list| && Names(list[i], id)
    requires forall j :: i < j < |list| ==> !Names(list[j], id)
    ensures id in MapOf(list) && MapOf(list)[id] == list[i].info
  {
    var n := |list| - 1;
    if i < n {
      assert !Names(list[n], id);
      LastElementCounts(list[..n], i, id);
    }
  }

  /** A peer that no element names is not in the map. */
  lemma {:induction false} UnnamedIsAbsent(list: seq<RawPeer>, id: Id)
    requires forall j :: 0 <= j < |list| ==> !Names(list[j], id)
    ensures id !in MapOf(list)
  {
    if list != [] {
      assert !Names(list[|list| - 1], id);
      UnnamedIsAbsent(list[..|list| - 1], id);
    }
  }

  function AsSeen(peers: map<Id, Info>): View {
    map id | id in peers :: Seen(peers[id], true)
  }

  class Client {
    var peers: View

    constructor ()
      ensures peers == map[]
    {
      peers := map[];
    }

    /** payload is None when the "peers" field is not a list; the server's empty list arrives
        so, as a null. */
    method HandlePeerList(payload: Option<seq<RawPeer>>) returns (r: Outcome)
      modifies this
      ensures r == Refused <==> payload.None?
      ensures r == Panicked <==> payload.Some? && Incomplete in payload.value
      ensures r == Refused ==> peers == Apply(old(peers), PeerList(map[]))
      ensures r == Handled ==> peers == AsSeen(MapOf(payload.value))
      ensures r == Handled && MapOf(payload.value) != map[] ==>
                peers == Apply(old(peers), PeerList(MapOf(payload.value)))
    {
      if payload.None? {
        return Refused;
      }
      var list := payload.value;
      peers := map[];
      for i := 0 to |list|
        invariant peers == AsSeen(MapOf(list[..i]))
        invariant Incomplete !in list[..i]
      {
        assert list[..i + 1][..i] == list[..i];
        match list[i]
        case NotAnObject =>
        case Incomplete => return Panicked;
        case Complete(id, info) => peers := peers[id := Seen(info, true)];
      }
      assert list[..|list|] == list;
      return Handled;
    }

    method HandlePeerJoined(payload: RawPeer) returns (r: Outcome)
      modifies this
      ensures r == match payload case NotAnObject => Refused case Incomplete => Panicked case _ => Handled
      ensures peers == if r == Handled then Apply(old(peers), PeerJoined(payload.id, payload.info)) else old(peers)
    {
      match payload
      case NotAnObject => return Refused;
      case Incomplete => return Panicked;
      case Complete(id, info) =>
        peers := peers[id := Seen(info, true)];
        return Handled;
    }

    /** payload is None when it is not an object, and holds None when it has no id. */
    method HandlePeerLeft(payload: Option<Option<Id>>) returns (r: Outcome)
      modifies this
      ensures r == if payload.None? then Refused else if payload.value.None? then Panicked else Handled
      ensures peers == if r == Handled then Apply(old(peers), PeerLeft(payload.value.value)) else old(peers)
    {
      if payload.None? {
        return Refused;
      }
      if payload.value.None? {
        return Panicked;
      }
      var id := payload.value.value;
      if id in peers {
        peers := peers[id := peers[id].(online := false)];
      }
      return Handled;
    }
  }
}
