// The counting-sort build of a compressed sparse row graph (test/CSRBaseline.h), on one thread.
module CSR {

  // A weight is its bit pattern; the build only moves it.
  datatype RawEdge = RawEdge(src: nat, dst: nat, bits: nat)
  datatype DenseEdge = DenseEdge(u: nat, v: nat, w: nat)
  datatype Cell = Cell(v: nat, w: nat)

  // ---- The reference ----

  // What the first n edges leaving u contribute to its row, in input order.
  function Row(es: seq<DenseEdge>, n: nat, u: nat): seq<Cell>
    requires n <= |es|
  {
    if n == 0 then []
    else if es[n - 1].u == u then Row(es, n - 1, u) + [Cell(es[n - 1].v, es[n - 1].w)]
    else Row(es, n - 1, u)
  }

  function RowCount(es: seq<DenseEdge>, n: nat, u: nat): nat
    requires n <= |es|
  {
    if n == 0 then 0 else RowCount(es, n - 1, u) + if es[n - 1].u == u then 1 else 0
  }

  lemma {:induction false} RowSize(es: seq<DenseEdge>, n: nat, u: nat)
    requires n <= |es|
    ensures |Row(es, n, u)| == RowCount(es, n, u)
  {
    if n > 0 {
      RowSize(es, n - 1, u);
    }
  }

  // Where row i starts once the first n edges are in.
  function Start(es: seq<DenseEdge>, n: nat, i: nat): nat
    requires n <= |es|
  {
    if i == 0 then 0 else Start(es, n, i - 1) + RowCount(es, n, i - 1)
  }

  lemma {:induction false} StartStep(es: seq<DenseEdge>, n: nat, i: nat)
    requires n < |es|
    ensures Start(es, n + 1, i) == Start(es, n, i) + if es[n].u < i then 1 else 0
  {
    if i > 0 {
      StartStep(es, n, i - 1);
    }
  }

  lemma {:induction false} StartOfNone(es: seq<DenseEdge>, i: nat)
    ensures Start(es, 0, i) == 0
  {
    if i > 0 {
      StartOfNone(es, i - 1);
    }
  }

  // The rows take all the edges.
  lemma {:induction false} RowsTakeAll(es: seq<DenseEdge>, n: nat, nodes: nat)
    requires n <= |es| && forall k :: 0 <= k < |es| ==> es[k].u < nodes
    ensures Start(es, n, nodes) == n
  {
    if n == 0 {
      StartOfNone(es, nodes);
    } else {
      RowsTakeAll(es, n - 1, nodes);
      StartStep(es, n - 1, nodes);
    }
  }

  lemma {:induction false} StartsAscend(es: seq<DenseEdge>, i: nat, j: nat)
    requires i <= j
    ensures Start(es, |es|, i) <= Start(es, |es|, j)
  {
    if i < j {
      StartsAscend(es, i, j - 1);
    }
  }

  lemma {:induction false} RowsGrow(es: seq<DenseEdge>, n: nat, u: nat)
    requires n <= |es|
    ensures RowCount(es, n, u) <= RowCount(es, |es|, u)
    decreases |es| - n
  {
    if n < |es| {
      RowsGrow(es, n + 1, u);
    }
  }

  // ---- Dense ids ----

  ghost predicate Bijection(rawToDense: map<nat, nat>, denseToRaw: seq<nat>) {
    && (forall i :: 0 <= i < |denseToRaw| ==> denseToRaw[i] in rawToDense && rawToDense[denseToRaw[i]] == i)
    && (forall r :: r in rawToDense ==> rawToDense[r] < |denseToRaw| && denseToRaw[rawToDense[r]] == r)
  }

  // Some of the first n edges has r as an endpoint.
  ghost predicate Endpoint(raw: seq<RawEdge>, n: nat, r: nat)
    requires n <= |raw|
  {
    exists i :: 0 <= i < n && (raw[i].src == r || raw[i].dst == r)
  }

  ghost predicate Renames(raw: seq<RawEdge>, es: seq<DenseEdge>, rawToDense: map<nat, nat>) {
    |es| <= |raw| && forall i :: 0 <= i < |es| ==>
      && raw[i].src in rawToDense && raw[i].dst in rawToDense
      && es[i] == DenseEdge(rawToDense[raw[i].src], rawToDense[raw[i].dst], raw[i].bits)
  }

  // What the first n input edges leaving r contribute to its row, in dense ids.
  function RawRow(raw: seq<RawEdge>, n: nat, dense: map<nat, nat>, r: nat): seq<Cell>
    requires n <= |raw| && forall i :: 0 <= i < n ==> raw[i].dst in dense
  {
    if n == 0 then []
    else if raw[n - 1].src == r then RawRow(raw, n - 1, dense, r) + [Cell(dense[raw[n - 1].dst], raw[n - 1].bits)]
    else RawRow(raw, n - 1, dense, r)
  }

  lemma {:induction false} RowIsRawRow(raw: seq<RawEdge>, es: seq<DenseEdge>, rawToDense: map<nat, nat>,
                                       denseToRaw: seq<nat>, n: nat, u: nat)
    requires Bijection(rawToDense, denseToRaw) && |es| == |raw| && Renames(raw, es, rawToDense)
    requires n <= |es| && u < |denseToRaw|
    ensures Row(es, n, u) == RawRow(raw, n, rawToDense, denseToRaw[u])
  {
    if n > 0 {
      RowIsRawRow(raw, es, rawToDense, denseToRaw, n - 1, u);
    }
  }

  // ---- The filled rows ----

  // The cells written after n edges: a prefix of every row, in its place.
  ghost predicate Filled(es: seq<DenseEdge>, n: nat, nodes: nat, starts: seq<nat>, offsets: seq<nat>, cols: seq<nat>,
                         weights: seq<nat>) {
    && n <= |es| && |starts| == nodes + 1 && |offsets| == nodes + 1 && |cols| == |weights| == |es|
    && StartsOk(es, nodes, starts)
    && forall u {:trigger RowFilled(es, n, u, starts, offsets, cols, weights)} ::
         0 <= u < nodes ==> RowFilled(es, n, u, starts, offsets, cols, weights)
  }

  ghost predicate StartsOk(es: seq<DenseEdge>, nodes: nat, starts: seq<nat>) {
    |starts| == nodes + 1 && forall u :: 0 <= u <= nodes ==> starts[u] == Start(es, |es|, u)
  }

  ghost predicate RowFilled(es: seq<DenseEdge>, n: nat, u: nat, starts: seq<nat>, offsets: seq<nat>, cols: seq<nat>,
                            weights: seq<nat>)
    requires n <= |es| && u < |starts| && u < |offsets| && |cols| == |weights|
  {
    var row := Row(es, n, u);
    && offsets[u] == starts[u] + |row| && offsets[u] <= |cols|
    && forall k :: 0 <= k < |row| ==> cols[starts[u] + k] == row[k].v && weights[starts[u] + k] == row[k].w
  }

  // One more edge: its row grows by its cell, the other rows do not see the write.
  lemma CellInRow(es: seq<DenseEdge>, n: nat, u: nat, starts: seq<nat>, offsets: seq<nat>, cols: seq<nat>,
                  weights: seq<nat>)
    requires n < |es| && u < |starts| && |offsets| == |starts| && |cols| == |weights|
    requires u == es[n].u && RowFilled(es, n, u, starts, offsets, cols, weights) && offsets[u] < |cols|
    ensures RowFilled(es, n + 1, u, starts, offsets[u := offsets[u] + 1], cols[offsets[u] := es[n].v],
        weights[offsets[u] := es[n].w])
  {
  }

  lemma CellElsewhere(es: seq<DenseEdge>, n: nat, u: nat, starts: seq<nat>, offsets: seq<nat>, cols: seq<nat>,
                      weights: seq<nat>, idx: nat)
    requires n < |es| && u < |starts| && |offsets| == |starts| && |cols| == |weights| && es[n].u < |offsets|
    requires u != es[n].u && RowFilled(es, n, u, starts, offsets, cols, weights) && idx < |cols|
    requires idx < starts[u] || offsets[u] <= idx
    ensures RowFilled(es, n + 1, u, starts, offsets[es[n].u := idx + 1], cols[idx := es[n].v], weights[idx := es[n].w])
  {
  }

  lemma RoomInRow(es: seq<DenseEdge>, n: nat, nodes: nat, starts: seq<nat>, offsets: seq<nat>, cols: seq<nat>,
                  weights: seq<nat>)
    requires Filled(es, n, nodes, starts, offsets, cols, weights) && n < |es| && es[n].u < nodes
    requires forall k :: 0 <= k < |es| ==> es[k].u < nodes
    ensures var u := es[n].u; starts[u] <= offsets[u] < starts[u + 1] <= |es|
  {
    var u := es[n].u;
    assert RowFilled(es, n, u, starts, offsets, cols, weights);
    RowSize(es, n, u);
    RowsGrow(es, n + 1, u);
    RowsTakeAll(es, |es|, nodes);
    StartsAscend(es, u + 1, nodes);
  }

  lemma RowsApart(es: seq<DenseEdge>, n: nat, nodes: nat, starts: seq<nat>, offsets: seq<nat>, cols: seq<nat>,
                  weights: seq<nat>, u: nat, x: nat)
    requires Filled(es, n, nodes, starts, offsets, cols, weights) && u < nodes && x < nodes && u != x
    ensures offsets[u] <= starts[x] || starts[x + 1] <= starts[u]
  {
    assert RowFilled(es, n, u, starts, offsets, cols, weights);
    RowSize(es, n, u);
    RowsGrow(es, n, u);
    if u < x {
      StartsAscend(es, u + 1, x);
    } else {
      StartsAscend(es, x + 1, u);
    }
  }

  lemma NextCell(es: seq<DenseEdge>, n: nat, nodes: nat, starts: seq<nat>, offsets: seq<nat>, cols: seq<nat>,
                 weights: seq<nat>)
    requires Filled(es, n, nodes, starts, offsets, cols, weights) && n < |es|
    requires forall k :: 0 <= k < |es| ==> es[k].u < nodes
    ensures var e := es[n];
            var idx := offsets[e.u];
            && idx < |es|
            && Filled(es, n + 1, nodes, starts, offsets[e.u := idx + 1], cols[idx := e.v], weights[idx := e.w])
  {
    var e := es[n];
    var idx := offsets[e.u];
    RoomInRow(es, n, nodes, starts, offsets, cols, weights);
    forall u {:trigger RowFilled(es, n + 1, u, starts, offsets[e.u := idx + 1], cols[idx := e.v],
        weights[idx := e.w])} | 0 <= u < nodes
      ensures RowFilled(es, n + 1, u, starts, offsets[e.u := idx + 1], cols[idx := e.v], weights[idx := e.w])
    {
      assert RowFilled(es, n, u, starts, offsets, cols, weights);
      if u == e.u {
        CellInRow(es, n, u, starts, offsets, cols, weights);
      } else {
        RowsApart(es, n, nodes, starts, offsets, cols, weights, u, e.u);
        CellElsewhere(es, n, u, starts, offsets, cols, weights, idx);
      }
    }
  }

  // Row u of the finished graph.
  ghost function Slice(cols: seq<nat>, weights: seq<nat>, from: nat, to: nat): (r: seq<Cell>)
    requires from <= to <= |cols| == |weights|
  {
    seq(to - from, k requires 0 <= k < to - from => Cell(cols[from + k], weights[from + k]))
  }

  ghost predicate RowStands(es: seq<DenseEdge>, starts: seq<nat>, cols: seq<nat>, weights: seq<nat>, u: nat) {
    u + 1 < |starts| ==>
      && starts[u] <= starts[u + 1] <= |cols| == |weights|
      && Slice(cols, weights, starts[u], starts[u + 1]) == Row(es, |es|, u)
  }

  ghost predicate AllRowsStand(es: seq<DenseEdge>, nodes: nat, starts: seq<nat>, cols: seq<nat>, weights: seq<nat>) {
    && |starts| == nodes + 1 && starts[0] == 0 && starts[nodes] == |es| == |cols| == |weights|
    && forall u {:trigger RowStands(es, starts, cols, weights, u)} :: RowStands(es, starts, cols, weights, u)
  }

  lemma SlicesAreRows(es: seq<DenseEdge>, nodes: nat, starts: seq<nat>, offsets: seq<nat>, cols: seq<nat>,
                      weights: seq<nat>)
    requires Filled(es, |es|, nodes, starts, offsets, cols, weights)
    requires forall k :: 0 <= k < |es| ==> es[k].u < nodes
    ensures AllRowsStand(es, nodes, starts, cols, weights)
  {
    RowsTakeAll(es, |es|, nodes);
    forall u: nat {:trigger RowStands(es, starts, cols, weights, u)}
      ensures RowStands(es, starts, cols, weights, u)
    {
      if u < nodes {
        StartsAscend(es, u + 1, nodes);
        RowSize(es, |es|, u);
        assert RowFilled(es, |es|, u, starts, offsets, cols, weights);
      }
    }
  }

  // The row of a dense id holds exactly the input edges leaving its raw id, in input order.
  ghost predicate Held(raw: seq<RawEdge>, rawToDense: map<nat, nat>, denseToRaw: seq<nat>,
                       rowPtr: seq<nat>, cols: seq<nat>, weights: seq<nat>, u: nat) {
    && (forall i :: 0 <= i < |raw| ==> raw[i].dst in rawToDense)
    && (u < |denseToRaw| && u + 1 < |rowPtr| ==>
          && rowPtr[u] <= rowPtr[u + 1] <= |cols| == |weights|
          && Slice(cols, weights, rowPtr[u], rowPtr[u + 1]) == RawRow(raw, |raw|, rawToDense, denseToRaw[u]))
  }

  ghost predicate AllHeld(raw: seq<RawEdge>, rawToDense: map<nat, nat>, denseToRaw: seq<nat>,
                          rowPtr: seq<nat>, cols: seq<nat>, weights: seq<nat>) {
    && |rowPtr| == |denseToRaw| + 1 && |cols| == |weights| == |raw|
    && rowPtr[0] == 0 && rowPtr[|denseToRaw|] == |raw|
    && forall u {:trigger Held(raw, rawToDense, denseToRaw, rowPtr, cols, weights, u)} ::
         Held(raw, rawToDense, denseToRaw, rowPtr, cols, weights, u)
  }

  lemma RowsAreHeld(raw: seq<RawEdge>, es: seq<DenseEdge>, rawToDense: map<nat, nat>, denseToRaw: seq<nat>,
                    rowPtr: seq<nat>, cols: seq<nat>, weights: seq<nat>)
    requires Bijection(rawToDense, denseToRaw) && |es| == |raw| && Renames(raw, es, rawToDense)
    requires AllRowsStand(es, |denseToRaw|, rowPtr, cols, weights)
    ensures AllHeld(raw, rawToDense, denseToRaw, rowPtr, cols, weights)
  {
    forall u: nat {:trigger Held(raw, rawToDense, denseToRaw, rowPtr, cols, weights, u)}
      ensures Held(raw, rawToDense, denseToRaw, rowPtr, cols, weights, u)
    {
      if u < |denseToRaw| {
        RowIsRawRow(raw, es, rawToDense, denseToRaw, |es|, u);
        assert RowStands(es, rowPtr, cols, weights, u);
      }
    }
  }

  class CSRGraph {
    var rowPtr: array<nat>
    var colInd: array<nat>
    var weights: array<nat>
    var rawToDense: map<nat, nat>
    var denseToRaw: seq<nat>
    var numNodes: nat
    var numEdges: nat

    constructor ()
      ensures numNodes == 0 && numEdges == 0
    {
      rowPtr, colInd, weights := new nat[0], new nat[0], new nat[0];
      rawToDense, denseToRaw, numNodes, numEdges := map[], [], 0, 0;
    }

    // get_or_add_dense: known ids keep their number, a new one takes the next.
    method GetOrAddDense(raw: nat) returns (dense: nat)
      requires Bijection(rawToDense, denseToRaw)
      modifies this`rawToDense, this`denseToRaw
      ensures Bijection(rawToDense, denseToRaw) && raw in rawToDense && rawToDense[raw] == dense
      ensures rawToDense.Keys == old(rawToDense).Keys + {raw}
      ensures forall r :: r in old(rawToDense) ==> rawToDense[r] == old(rawToDense)[r]
    {
      if raw in rawToDense {
        return rawToDense[raw];
      }
      dense := |denseToRaw|;
      rawToDense := rawToDense[raw := dense];
      denseToRaw := denseToRaw + [raw];
    }

    method Densify(raw: seq<RawEdge>) returns (es: seq<DenseEdge>)
      requires rawToDense == map[] && denseToRaw == []
      modifies this`rawToDense, this`denseToRaw
      ensures Bijection(rawToDense, denseToRaw) && |es| == |raw| && Renames(raw, es, rawToDense)
      ensures forall r {:trigger r in rawToDense} :: r in rawToDense <==> Endpoint(raw, |raw|, r)
    {
      es := [];
      for i := 0 to |raw|
        invariant Bijection(rawToDense, denseToRaw) && |es| == i && Renames(raw, es, rawToDense)
        invariant forall r {:trigger r in rawToDense} :: r in rawToDense <==> Endpoint(raw, i, r)
      {
        var u := GetOrAddDense(raw[i].src);
        var v := GetOrAddDense(raw[i].dst);
        es := es + [DenseEdge(u, v, raw[i].bits)];
      }
    }

    static method CountDegrees(es: seq<DenseEdge>, nodes: nat) returns (degrees: array<nat>)
      requires forall k :: 0 <= k < |es| ==> es[k].u < nodes
      ensures fresh(degrees) && degrees.Length == nodes
      ensures forall u :: 0 <= u < nodes ==> degrees[u] == RowCount(es, |es|, u)
    {
      degrees := new nat[nodes](_ => 0);
      for i := 0 to |es|
        invariant forall u :: 0 <= u < nodes ==> degrees[u] == RowCount(es, i, u)
      {
        degrees[es[i].u] := degrees[es[i].u] + 1;
      }
    }

    // The prefix sums.
    static method SumDegrees(es: seq<DenseEdge>, nodes: nat, degrees: array<nat>) returns (starts: array<nat>)
      requires degrees.Length == nodes && forall u :: 0 <= u < nodes ==> degrees[u] == RowCount(es, |es|, u)
      ensures fresh(starts) && StartsOk(es, nodes, starts[..])
    {
      starts := new nat[nodes + 1];
      starts[0] := 0;
      for i := 0 to nodes
        invariant forall u :: 0 <= u <= i ==> starts[u] == Start(es, |es|, u)
      {
        starts[i + 1] := starts[i] + degrees[i];
      }
    }

    static method WriteCell(e: DenseEdge, offsets: array<nat>, cols: array<nat>, weights: array<nat>)
      requires e.u < offsets.Length && offsets[e.u] < cols.Length == weights.Length
      requires offsets != cols && offsets != weights && cols != weights
      modifies offsets, cols, weights
      ensures var idx := old(offsets[e.u]);
              && offsets[..] == old(offsets[..])[e.u := idx + 1]
              && cols[..] == old(cols[..])[idx := e.v] && weights[..] == old(weights[..])[idx := e.w]
    {
      var idx := offsets[e.u];
      offsets[e.u] := idx + 1;
      cols[idx] := e.v;
      weights[idx] := e.w;
    }

    // The counting sort: every edge goes to the next free cell of its row.
    static method FillRows(es: seq<DenseEdge>, nodes: nat, starts: array<nat>)
      returns (cols: array<nat>, weights: array<nat>)
      requires StartsOk(es, nodes, starts[..]) && forall k :: 0 <= k < |es| ==> es[k].u < nodes
      ensures fresh(cols) && fresh(weights) && AllRowsStand(es, nodes, starts[..], cols[..], weights[..])
    {
      cols, weights := new nat[|es|], new nat[|es|];
      var offsets := new nat[nodes + 1](i requires 0 <= i <= nodes reads starts => starts[i]);
      assert offsets[..] == starts[..];
      NothingFilled(es, nodes, starts[..], cols[..], weights[..]);
      ghost var ptr := starts[..];
      for i := 0 to |es|
        invariant starts[..] == ptr && Filled(es, i, nodes, ptr, offsets[..], cols[..], weights[..])
      {
        NextCell(es, i, nodes, ptr, offsets[..], cols[..], weights[..]);
        WriteCell(es[i], offsets, cols, weights);
      }
      SlicesAreRows(es, nodes, ptr, offsets[..], cols[..], weights[..]);
    }

    static lemma NothingFilled(es: seq<DenseEdge>, nodes: nat, starts: seq<nat>, cols: seq<nat>, weights: seq<nat>)
      requires StartsOk(es, nodes, starts) && |cols| == |weights| == |es|
      requires forall k :: 0 <= k < |es| ==> es[k].u < nodes
      ensures Filled(es, 0, nodes, starts, starts, cols, weights)
    {
      RowsTakeAll(es, |es|, nodes);
      forall u {:trigger RowFilled(es, 0, u, starts, starts, cols, weights)} | 0 <= u < nodes
        ensures RowFilled(es, 0, u, starts, starts, cols, weights)
      {
        StartsAscend(es, u, nodes);
      }
    }

    static method BuildRows(es: seq<DenseEdge>, nodes: nat)
      returns (starts: array<nat>, cols: array<nat>, weights: array<nat>)
      requires forall k :: 0 <= k < |es| ==> es[k].u < nodes
      ensures AllRowsStand(es, nodes, starts[..], cols[..], weights[..])
    {
      var degrees := CountDegrees(es, nodes);
      starts := SumDegrees(es, nodes, degrees);
      cols, weights := FillRows(es, nodes, starts);
    }

    // build: the dense ids are a bijection between the endpoints and 0 .. numNodes - 1, and every
    // row holds exactly the edges that leave its vertex.
    method Build(raw: seq<RawEdge>)
      modifies this
      ensures Bijection(rawToDense, denseToRaw) && numNodes == |denseToRaw| && numEdges == |raw|
      ensures forall r {:trigger r in rawToDense} :: r in rawToDense <==> Endpoint(raw, |raw|, r)
      ensures AllHeld(raw, rawToDense, denseToRaw, rowPtr[..], colInd[..], weights[..])
    {
      rawToDense, denseToRaw := map[], [];
      var es := Densify(raw);
      numNodes, numEdges := |denseToRaw|, |raw|;
      rowPtr, colInd, weights := BuildRows(es, numNodes);
      RowsAreHeld(raw, es, rawToDense, denseToRaw, rowPtr[..], colInd[..], weights[..]);
    }
  }
}
