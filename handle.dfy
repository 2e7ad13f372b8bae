/** The decoder handle (a SuperWebP instance) seen only through the calls the controls make on it. */
module Handle {

  /** A call the user interface makes on a handle. */
  datatype Call = Play | Pause | MoveTo(frame: int) | MoveRelative(delta: int)

  /** A registered handle: the source and autoplay flag it was created with, and every call made on it so far. */
  datatype Player = Player(src: string, autoPlay: bool, log: seq<Call>)

  /** The registry (indexed by instance id) after the handle `id` has received `calls`, in order: that handle keeps
      its source and autoplay flag and its earlier calls, and every other handle is untouched. */
  function Append(m: seq<Player>, id: nat, calls: seq<Call>): (r: seq<Player>)
    requires id < |m|
    ensures |r| == |m|
    ensures r[id].src == m[id].src && r[id].autoPlay == m[id].autoPlay
    ensures |r[id].log| == |m[id].log| + |calls|
    ensures r[id].log[..|m[id].log|] == m[id].log && r[id].log[|m[id].log|..] == calls
    ensures forall j :: 0 <= j < |m| && j != id ==> r[j] == m[j]
  {
    m[id := m[id].(log := m[id].log + calls)]
  }

  /** Two successive batches of calls on one handle are one batch of their concatenation. */
  lemma AppendTwice(m: seq<Player>, id: nat, a: seq<Call>, b: seq<Call>)
    requires id < |m|
    ensures Append(Append(m, id, a), id, b) == Append(m, id, a + b)
  {
    assert m[id].log + a + b == m[id].log + (a + b);
  }
}
