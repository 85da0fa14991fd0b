/** Extruded prism meshes: triangles over columns of nodes, one prism per triangle and layer. */
module SiaMesh {

  /**
    ids[l][c] is the number of the node of column c on level l, tris[t] the columns of triangle t, icy[t]
    whether the prisms over triangle t hold ice.
   */
  datatype Mesh = Mesh(ids: seq<seq<nat>>, tris: seq<seq<nat>>, icy: seq<bool>, numNodes: nat) {

    ghost predicate Valid() {
      && |ids| >= 2
      && |icy| == |tris|
      && (forall l :: 0 <= l < |ids| ==> |ids[l]| == |ids[0]|)
      && (forall l, c :: 0 <= l < |ids| && 0 <= c < |ids[l]| ==> ids[l][c] < numNodes)
      && (forall l, c, l', c' ::
            (0 <= l < |ids| && 0 <= c < |ids[l]| && 0 <= l' < |ids| && 0 <= c' < |ids[l']| && ids[l][c] == ids[l'][c'])
            ==> l == l' && c == c')
      && (forall t :: 0 <= t < |tris| ==> ValidTriangle(tris[t], |ids[0]|))
    }

    function Layers(): nat
      requires |ids| >= 2
    {
      |ids| - 1
    }
  }

  predicate ValidTriangle(tri: seq<nat>, columns: nat) {
    && |tri| == 3
    && tri[0] < columns && tri[1] < columns && tri[2] < columns
    && tri[0] != tri[1] && tri[1] != tri[2] && tri[0] != tri[2]
  }

  /** The six vertices of a prism: the triangle on level l, then on level l+1. */
  function Vertices(mesh: Mesh, t: nat, l: nat): (v: seq<nat>)
    requires mesh.Valid() && t < |mesh.tris| && l < mesh.Layers()
    ensures |v| == 6
  {
    var tri := mesh.tris[t];
    assert ValidTriangle(tri, |mesh.ids[0]|);
    [mesh.ids[l][tri[0]], mesh.ids[l][tri[1]], mesh.ids[l][tri[2]],
     mesh.ids[l + 1][tri[0]], mesh.ids[l + 1][tri[1]], mesh.ids[l + 1][tri[2]]]
  }

  /** The number of triangles, among the first m, that meet column c. */
  function Degree(mesh: Mesh, c: nat, m: nat): nat
    requires m <= |mesh.tris|
  {
    if m == 0 then 0 else Degree(mesh, c, m - 1) + if c in mesh.tris[m - 1] then 1 else 0
  }

  /** ... and that hold ice. */
  function IcyDegree(mesh: Mesh, c: nat, m: nat): nat
    requires m <= |mesh.tris| && |mesh.icy| == |mesh.tris|
  {
    if m == 0 then 0 else IcyDegree(mesh, c, m - 1) + if mesh.icy[m - 1] && c in mesh.tris[m - 1] then 1 else 0
  }

  /** The number of prisms that meet the node of column c on level l: one or two per triangle. */
  function Connectivity(mesh: Mesh, l: nat, c: nat): nat
    requires |mesh.ids| >= 2
  {
    Degree(mesh, c, |mesh.tris|) * (if l == 0 || l == mesh.Layers() then 1 else 2)
  }

  /** The number of prisms, in layers before l or among the first m of layer l, that meet level k of column c. */
  function Count(mesh: Mesh, k: nat, c: nat, l: nat, m: nat): nat
    requires m <= |mesh.tris|
  {
    (if k < l then Degree(mesh, c, |mesh.tris|) else if k == l then Degree(mesh, c, m) else 0)
    + (if k >= 1 && k - 1 < l then Degree(mesh, c, |mesh.tris|) else if k >= 1 && k - 1 == l then Degree(mesh, c, m) else 0)
  }

  lemma VertexOf(mesh: Mesh, t: nat, l: nat, k: nat, c: nat, j: nat)
    requires mesh.Valid() && t < |mesh.tris| && l < mesh.Layers() && k < |mesh.ids| && c < |mesh.ids[0]| && j < 6
    ensures Vertices(mesh, t, l)[j] == mesh.ids[k][c]
       <==> k == (if j < 3 then l else l + 1) && mesh.tris[t][if j < 3 then j else j - 3] == c
  {
  }

  /** The connectivity table of all prisms. */
  method CountConnectivity(mesh: Mesh) returns (connectivity: array<nat>)
    requires mesh.Valid()
    ensures connectivity.Length == mesh.numNodes
    ensures forall l, c :: 0 <= l < |mesh.ids| && 0 <= c < |mesh.ids[0]| ==>
      connectivity[mesh.ids[l][c]] == Connectivity(mesh, l, c)
  {
    connectivity := new nat[mesh.numNodes](_ => 0);
    for l := 0 to mesh.Layers()
      invariant forall k, c :: 0 <= k < |mesh.ids| && 0 <= c < |mesh.ids[0]| ==>
        connectivity[mesh.ids[k][c]] == Count(mesh, k, c, l, 0)
    {
      for t := 0 to |mesh.tris|
        invariant forall k, c :: 0 <= k < |mesh.ids| && 0 <= c < |mesh.ids[0]| ==>
          connectivity[mesh.ids[k][c]] == Count(mesh, k, c, l, t)
      {
        CountPrism(mesh, connectivity, t, l);
      }
    }
  }

  /** One more prism. */
  method CountPrism(mesh: Mesh, connectivity: array<nat>, t: nat, l: nat)
    requires mesh.Valid() && t < |mesh.tris| && l < mesh.Layers() && connectivity.Length == mesh.numNodes
    requires forall k, c :: 0 <= k < |mesh.ids| && 0 <= c < |mesh.ids[0]| ==>
      connectivity[mesh.ids[k][c]] == Count(mesh, k, c, l, t)
    modifies connectivity
    ensures forall k, c :: 0 <= k < |mesh.ids| && 0 <= c < |mesh.ids[0]| ==>
      connectivity[mesh.ids[k][c]] == Count(mesh, k, c, l, t + 1)
  {
    hide Vertices;
    hide Count;
    VerticesDiffer(mesh, t, l);
    CountVertices(connectivity, Vertices(mesh, t, l));
    forall k, c | 0 <= k < |mesh.ids| && 0 <= c < |mesh.ids[0]|
      ensures connectivity[mesh.ids[k][c]] == Count(mesh, k, c, l, t + 1)
    {
      VertexIn(mesh, t, l, k, c);
      CountNext(mesh, k, c, l, t);
    }
  }

  /** Every vertex of a prism is counted once. */
  method CountVertices(connectivity: array<nat>, v: seq<nat>)
    requires forall i :: 0 <= i < |v| ==> v[i] < connectivity.Length
    requires forall i, j :: 0 <= i < j < |v| ==> v[i] != v[j]
    modifies connectivity
    ensures forall n :: 0 <= n < connectivity.Length ==> connectivity[n] == old(connectivity[n]) + if n in v then 1 else 0
  {
    for j := 0 to |v|
      invariant forall n :: 0 <= n < connectivity.Length ==>
        connectivity[n] == old(connectivity[n]) + if n in v[..j] then 1 else 0
    {
      assert v[j] !in v[..j];
      connectivity[v[j]] := connectivity[v[j]] + 1;
      assert v[..j + 1] == v[..j] + [v[j]];
    }
    assert v[..|v|] == v;
  }

  lemma VerticesDiffer(mesh: Mesh, t: nat, l: nat)
    requires mesh.Valid() && t < |mesh.tris| && l < mesh.Layers()
    ensures var v := Vertices(mesh, t, l);
      && (forall i :: 0 <= i < 6 ==> v[i] < mesh.numNodes)
      && (forall i, j :: 0 <= i < j < 6 ==> v[i] != v[j])
  {
    assert ValidTriangle(mesh.tris[t], |mesh.ids[0]|);
  }

  lemma CountNext(mesh: Mesh, k: nat, c: nat, l: nat, t: nat)
    requires t < |mesh.tris|
    ensures Count(mesh, k, c, l, t + 1) == Count(mesh, k, c, l, t) + if (k == l || k == l + 1) && c in mesh.tris[t] then 1 else 0
  {
  }

  lemma VertexIn(mesh: Mesh, t: nat, l: nat, k: nat, c: nat)
    requires mesh.Valid() && t < |mesh.tris| && l < mesh.Layers() && k < |mesh.ids| && c < |mesh.ids[0]|
    ensures mesh.ids[k][c] in Vertices(mesh, t, l) <==> (k == l || k == l + 1) && c in mesh.tris[t]
  {
  }
}
