/** In-place assembly of the stiffness matrix, element by element. */
module Kernel {
  import opened RealVectors
  import opened LinearForms
  import opened FeaTypes
  import opened Elements
  import opened Assembly

  // ---------------------------------------------------------------- assembly in place

  method AddEntry(stiffness: array<Vector>, i: nat, j: nat, value: real)
    requires i < stiffness.Length && j < |stiffness[i]|
    modifies stiffness
    ensures stiffness[..] == AddAt(old(stiffness[..]), i, j, value)
  {
    stiffness[i] := stiffness[i][j := stiffness[i][j] + value];
  }

  lemma TrussMatrixEntry(shape: TrussShape, factor: real, i: nat, j: nat, signI: real, signJ: real)
    requires i < 6 && j < 6 && signI == TrussSign(i) && signJ == TrussSign(j)
    ensures TrussMatrix(shape, factor)[i][j]
         == factor * signI * signJ * shape.direction.Axis(i % 3) * shape.direction.Axis(j % 3)
  {
  }

  method AssembleTrussRow(nodes: seq<nat>, shape: TrussShape, factor: real, i: nat, stiffness: array<Vector>)
    requires IsMatrix(stiffness[..], stiffness.Length, stiffness.Length)
    requires |nodes| == 2 && IsIndex(Index(nodes), stiffness.Length) && i < 6
    modifies stiffness
    ensures stiffness[..] == ScatterRow(old(stiffness[..]), stiffness.Length, Index(nodes), TrussMatrix(shape, factor), i, 6)
  {
    hide TrussMatrix;
    var n := stiffness.Length;
    ghost var k0, index, local := stiffness[..], Index(nodes), TrussMatrix(shape, factor);
    for j := 0 to 6
      invariant stiffness[..] == ScatterRow(k0, n, index, local, i, j)
    {
      var signI := if i < 3 then -1.0 else 1.0;
      var signJ := if j < 3 then -1.0 else 1.0;
      var globalI, globalJ := nodes[i / 3] * 3 + i % 3, nodes[j / 3] * 3 + j % 3;
      var value := factor * signI * signJ * shape.direction.Axis(i % 3) * shape.direction.Axis(j % 3);
      TrussMatrixEntry(shape, factor, i, j, signI, signJ);
      assert local[i][j] == value;
      assert globalI == index[i] && globalJ == index[j];
      assert |stiffness[..][globalI]| == n;
      AddEntry(stiffness, globalI, globalJ, value);
    }
  }

  method AssembleTruss(nodes: seq<nat>, shape: TrussShape, factor: real, stiffness: array<Vector>)
    requires IsMatrix(stiffness[..], stiffness.Length, stiffness.Length)
    requires |nodes| == 2 && IsIndex(Index(nodes), stiffness.Length)
    modifies stiffness
    ensures stiffness[..] == Scatter(old(stiffness[..]), stiffness.Length, Index(nodes), TrussMatrix(shape, factor))
  {
    hide TrussMatrix, Index, IsIndex;
    var n := stiffness.Length;
    ghost var k0, index, local := stiffness[..], Index(nodes), TrussMatrix(shape, factor);
    for i := 0 to 6
      invariant stiffness[..] == ScatterRows(k0, n, index, local, i)
    {
      AssembleTrussRow(nodes, shape, factor, i, stiffness);
    }
  }

  /** b[row][i] * d[row][column] * b[column][j], summed over the columns. */
  method TetRowSum(b: Matrix, d: Matrix, i: nat, j: nat, row: nat) returns (value: real)
    requires IsMatrix(b, 6, 12) && IsMatrix(d, 6, 6) && i < 12 && j < 12 && row < 6
    ensures value == Product(b[row][i], Dot(d[row], Column(b, 12, j)))
  {
    value := 0.0;
    ghost var cj := Column(b, 12, j);
    for column := 0 to 6
      invariant value == b[row][i] * DotRange(d[row], cj, 0, column)
    {
      DistributeProduct(b[row][i], DotRange(d[row], cj, 0, column), d[row][column], b[column][j]);
      value := value + b[row][i] * d[row][column] * b[column][j];
    }
  }

  lemma DistributeProduct(f: real, s: real, x: real, y: real)
    ensures f * (s + x * y) == f * s + f * x * y
  {
  }

  /** The form, summed over the first `rows` rows. */
  function FormTo(d: Matrix, v: Vector, u: Vector, rows: nat): real
    requires IsMatrix(d, |v|, |u|) && rows <= |v|
  {
    DotRange(v, Apply(d, u), 0, rows)
  }

  lemma FormEnds(d: Matrix, v: Vector, u: Vector)
    requires IsMatrix(d, |v|, |u|)
    ensures FormTo(d, v, u, 0) == 0.0 && FormTo(d, v, u, |v|) == Form(d, v, u)
  {
  }

  lemma FormStep(d: Matrix, v: Vector, u: Vector, row: nat)
    requires IsMatrix(d, |v|, |u|) && row < |v|
    ensures FormTo(d, v, u, row + 1) == FormTo(d, v, u, row) + Product(v[row], Dot(d[row], u))
  {
    hide Dot;
  }

  /** (column i of b) . d (column j of b), summed row by row. */
  method TetEntry(b: Matrix, d: Matrix, i: nat, j: nat) returns (value: real)
    requires IsMatrix(b, 6, 12) && IsMatrix(d, 6, 6) && i < 12 && j < 12
    ensures value == Form(d, Column(b, 12, i), Column(b, 12, j))
  {
    hide Dot, FormTo, Form, Product;
    value := 0.0;
    ghost var ci, cj := Column(b, 12, i), Column(b, 12, j);
    FormEnds(d, ci, cj);
    for row := 0 to |b|
      invariant value == FormTo(d, ci, cj, row)
    {
      var share := TetRowSum(b, d, i, j, row);
      FormStep(d, ci, cj, row);
      value := value + share;
    }
  }

  lemma TetMatrixEntry(shape: TetShape, d: Matrix, i: nat, j: nat)
    requires IsMatrix(d, 6, 6) && i < 12 && j < 12
    ensures TetMatrix(shape, d)[i][j]
         == Product(Form(d, Column(StrainDisplacement(shape), 12, i), Column(StrainDisplacement(shape), 12, j)), shape.volume)
  {
    hide Form;
  }

  method AssembleTetrahedronRow(nodes: seq<nat>, shape: TetShape, b: Matrix, d: Matrix, i: nat, stiffness: array<Vector>)
    requires IsMatrix(stiffness[..], stiffness.Length, stiffness.Length)
    requires |nodes| == 4 && IsIndex(Index(nodes), stiffness.Length) && i < 12
    requires b == StrainDisplacement(shape) && IsMatrix(d, 6, 6)
    modifies stiffness
    ensures stiffness[..] == ScatterRow(old(stiffness[..]), stiffness.Length, Index(nodes), TetMatrix(shape, d), i, 12)
  {
    hide Form, StrainDisplacement, TetMatrix, Column, Product;
    var n := stiffness.Length;
    ghost var k0, index, local := stiffness[..], Index(nodes), TetMatrix(shape, d);
    var dofs := 3 * |nodes|;
    for j := 0 to dofs
      invariant stiffness[..] == ScatterRow(k0, n, index, local, i, j)
    {
      var sum := TetEntry(b, d, i, j);
      var value := Product(sum, shape.volume);
      TetMatrixEntry(shape, d, i, j);
      var globalI, globalJ := nodes[i / 3] * 3 + i % 3, nodes[j / 3] * 3 + j % 3;
      assert globalI == index[i] && globalJ == index[j];
      assert |stiffness[..][globalI]| == n;
      AddEntry(stiffness, globalI, globalJ, value);
    }
  }

  method AssembleTetrahedron(nodes: seq<nat>, shape: TetShape, young: real, poisson: real, stiffness: array<Vector>)
    requires IsMatrix(stiffness[..], stiffness.Length, stiffness.Length)
    requires |nodes| == 4 && IsIndex(Index(nodes), stiffness.Length)
    requires ElasticityDefined(poisson)
    modifies stiffness
    ensures stiffness[..] == Scatter(old(stiffness[..]), stiffness.Length, Index(nodes),
                                     TetMatrix(shape, ElasticityMatrix(Lambda(young, poisson), Shear(young, poisson))))
  {
    hide TetMatrix, ElasticityMatrix, StrainDisplacement, Lambda, Shear, Index, IsIndex, ScatterRow, ElasticityDefined;
    var n := stiffness.Length;
    var b := BuildStrainDisplacement(shape);
    var d := BuildElasticity(young, poisson);
    ghost var k0, index, local := stiffness[..], Index(nodes), TetMatrix(shape, d);
    var dofs := 3 * |nodes|;
    for i := 0 to dofs
      invariant stiffness[..] == ScatterRows(k0, n, index, local, i)
    {
      AssembleTetrahedronRow(nodes, shape, b, d, i, stiffness);
    }
  }

  /** Adds one element to the stiffness. */
  method AssembleElement(sqrt: real -> real, model: FeaModel, kind: ElementKind, stiffness: array<Vector>)
    requires IsMatrix(stiffness[..], stiffness.Length, stiffness.Length)
    requires stiffness.Length == 3 * |model.nodes| && Resolve(sqrt, model, kind).Some?
    requires IsIndex(Index(kind.Nodes()), stiffness.Length)
    modifies stiffness
    ensures stiffness[..] == Scatter(old(stiffness[..]), stiffness.Length, Index(kind.Nodes()),
                                     LocalMatrix(Resolve(sqrt, model, kind).value))
  {
    hide Scatter, TrussMatrix, TetMatrix, ElasticityMatrix, Lambda, Shear, TrussGeometry, TetGeometry, Index;
    var material := FindMaterial(model.materials, kind.materialId).value;
    match kind {
      case LinearTruss2(a, b, _, area) =>
        var shape := TrussGeometry(sqrt, model.nodes[a], model.nodes[b]).value;
        AssembleTruss([a, b], shape, AxialFactor(material.young, area, shape.length), stiffness);
      case LinearTetrahedron4(a, b, c, d, _) =>
        var shape := TetGeometry(model.nodes[a], model.nodes[b], model.nodes[c], model.nodes[d]).value;
        AssembleTetrahedron([a, b, c, d], shape, material.young, material.poisson, stiffness);
    }
  }

  method AssembleStiffness(sqrt: real -> real, model: FeaModel, stiffness: array<Vector>)
    requires AllReady(sqrt, model)
    requires stiffness.Length == 3 * |model.nodes| && stiffness[..] == ZeroMatrix(stiffness.Length)
    modifies stiffness
    ensures stiffness[..] == Stiffness(sqrt, model)
  {
    hide Resolve, Scatter, LocalMatrix;
    for e := 0 to |model.elements|
      invariant stiffness[..] == StiffnessTo(sqrt, model, e)
    {
      ghost var piece := PieceAt(sqrt, model, e);
      AssembleElement(sqrt, model, model.elements[e].kind, stiffness);
    }
  }
}
