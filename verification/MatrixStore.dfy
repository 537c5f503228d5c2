/**
  The matrix object: an array of sixteen numbers that the compound assignments update in place.
 */
module MatrixStore {
  import opened Matrices

  class Matrix4 {
    const data: array<real>

    ghost predicate Valid() {
      data.Length == 16
    }

    function Value(): Mat
      requires Valid()
      reads data
    {
      Mat(Vec(data[0], data[1], data[2], data[3]), Vec(data[4], data[5], data[6], data[7]),
          Vec(data[8], data[9], data[10], data[11]), Vec(data[12], data[13], data[14], data[15]))
    }

    constructor Identity()
      ensures Valid() && fresh(data)
      ensures Value() == IDENTITY
    {
      var d := new real[][1.0, 0.0, 0.0, 0.0, 0.0, 1.0, 0.0, 0.0, 0.0, 0.0, 1.0, 0.0, 0.0, 0.0, 0.0, 1.0];
      data := d;
    }

    /** The arguments are the rows. */
    constructor Rows(a: Vec, b: Vec, c: Vec, d: Vec)
      ensures Valid() && fresh(data)
      ensures Value() == FromRows(a, b, c, d)
    {
      var e := new real[][a.x, b.x, c.x, d.x, a.y, b.y, c.y, d.y, a.z, b.z, c.z, d.z, a.w, b.w, c.w, d.w];
      data := e;
    }

    method ScaleBy(b: real)
      requires Valid()
      modifies data
      ensures Value() == Scale(old(Value()), b)
    {
      var i := 0;
      while i < 16
        invariant 0 <= i <= 16
        invariant forall k :: 0 <= k < i ==> data[k] == Scaled(old(data[k]), b)
        invariant forall k :: i <= k < 16 ==> data[k] == old(data[k])
      {
        data[i] := Scaled(data[i], b);
        i := i + 1;
      }
    }

    /** The right-hand side may be the object itself. */
    method MultiplyBy(b: Matrix4)
      requires Valid() && b.Valid()
      modifies data
      ensures Value() == Mul(old(Value()), old(b.Value()))
    {
      var p := Product(this, b);
      forall i | 0 <= i < 16 {
        data[i] := p.data[i];
      }
    }

    static method Product(a: Matrix4, b: Matrix4) returns (r: Matrix4)
      requires a.Valid() && b.Valid()
      ensures fresh(r) && fresh(r.data) && r.Valid()
      ensures r.Value() == Mul(a.Value(), b.Value())
    {
      var m := Mul(a.Value(), b.Value());
      r := new Matrix4.Rows(Vec(m.p.x, m.q.x, m.r.x, m.t.x), Vec(m.p.y, m.q.y, m.r.y, m.t.y),
                            Vec(m.p.z, m.q.z, m.r.z, m.t.z), Vec(m.p.w, m.q.w, m.r.w, m.t.w));
    }

    static method Transposed(mat: Matrix4) returns (r: Matrix4)
      requires mat.Valid()
      ensures fresh(r) && fresh(r.data) && r.Valid()
      ensures r.Value() == Transpose(mat.Value())
    {
      var m := mat.Value();
      r := new Matrix4.Rows(m.p, m.q, m.r, m.t);
    }

    static method Invert(mat: Matrix4) returns (r: Matrix4)
      requires mat.Valid()
      ensures fresh(r) && fresh(r.data) && r.Valid()
      ensures r.Value() == Inverse(mat.Value())
      ensures Mul(r.Value(), mat.Value()) == IDENTITY <==> Det(mat.Value()) != 0.0
      ensures Mul(mat.Value(), r.Value()) == IDENTITY <==> Det(mat.Value()) != 0.0
    {
      var m := mat.Value();
      r := new Matrix4.Rows(CofactorRow0(m), CofactorRow1(m), CofactorRow2(m), CofactorRow3(m));
      var determinant :=
        m.p.x * r.data[0] + m.p.y * r.data[4] + m.p.z * r.data[8] + m.p.w * r.data[12];
      assert determinant == Det(m);
      if determinant != 0.0 {
        r.ScaleBy(1.0 / determinant);
      } else {
        r := new Matrix4.Identity();
      }
      InverseIff(m);
    }

    static method Equals(a: Matrix4, b: Matrix4) returns (same: bool)
      requires a.Valid() && b.Valid()
      ensures same <==> a.Value() == b.Value()
    {
      for i := 0 to 16
        invariant forall k :: 0 <= k < i ==> a.data[k] == b.data[k]
      {
        if a.data[i] != b.data[i] {
          return false;
        }
      }
      return true;
    }
  }
}
