/** Concatenation of low-rank forms along axis 0. */
module LoraCat {
  import opened Tensors
  import opened Lora

  /** One after the other, from the first of at least one. */
  function CatTensors(ts: seq<Tensor>): (r: Outcome<Tensor>)
    requires ts != [] && forall k :: 0 <= k < |ts| ==> IsTensor(ts[k])
    ensures r.Ok? ==> IsTensor(r.value)
  {
    if |ts| == 1 then Ok(ts[0])
    else
      var rest := CatTensors(ts[1..]);
      if rest.Ok? && Stackable(ts[0], rest.value) then Ok(Cat(ts[0], rest.value)) else ShapeError
  }

  function FactorsA(ts: seq<Lora>): (r: seq<Tensor>)
    requires forall k :: 0 <= k < |ts| ==> Valid(ts[k])
    ensures |r| == |ts| && forall k :: 0 <= k < |ts| ==> r[k] == ts[k].a && IsTensor(r[k])
  {
    assert forall k :: 0 <= k < |ts| ==> Valid(ts[k]) && IsTensor(ts[k].a);
    seq(|ts|, k requires 0 <= k < |ts| => ts[k].a)
  }

  function FactorsB(ts: seq<Lora>): (r: seq<Tensor>)
    requires forall k :: 0 <= k < |ts| ==> Valid(ts[k])
    ensures |r| == |ts| && forall k :: 0 <= k < |ts| ==> r[k] == ts[k].b && IsTensor(r[k])
  {
    assert forall k :: 0 <= k < |ts| ==> Valid(ts[k]) && IsTensor(ts[k].b);
    seq(|ts|, k requires 0 <= k < |ts| => ts[k].b)
  }

  function Denses(ts: seq<Lora>): (r: seq<Tensor>)
    requires forall k :: 0 <= k < |ts| ==> Valid(ts[k])
    ensures |r| == |ts| && forall k :: 0 <= k < |ts| ==> r[k] == Dense(ts[k])
  {
    seq(|ts|, k requires 0 <= k < |ts| => Dense(ts[k]))
  }

  /** The factors of the result fit each other. */
  function Checked(a: Tensor, b: Tensor): Outcome<Lora> {
    if |a.shape| == |b.shape| >= 2 && a.shape[|a.shape| - 2] == b.shape[|b.shape| - 1] then Ok(Lora(a, b))
    else AssertionFailed
  }

  /**
   `torch.cat` along axis 0: both factors when there are leading axes; for matrices `b` only, and all
   must have the same `a`.
   */
  function CatLoras(ts: seq<Lora>): Outcome<Lora>
    requires ts != [] && forall k :: 0 <= k < |ts| ==> Valid(ts[k])
  {
    if Axes(ts[0]) > 2 then
      var a, b := CatTensors(FactorsA(ts)), CatTensors(FactorsB(ts));
      if a.Ok? && b.Ok? then Checked(a.value, b.value) else ShapeError
    else if SameA(ts) then
      var b := CatTensors(FactorsB(ts));
      if b.Ok? then Checked(ts[0].a, b.value) else ShapeError
    else NotImplemented
  }

  predicate SameA(ts: seq<Lora>)
    requires ts != []
  {
    forall k :: 0 <= k < |ts| ==> ts[k].a == ts[0].a
  }

  /** Rows of `t` followed by those of `u`: on `b` alone with a common `a`, or on both factors. */
  predicate Joins(r: Lora, t: Lora, u: Lora) {
    && Valid(t) && Valid(u) && Stackable(t.b, u.b) && r.b == Cat(t.b, u.b)
    && if Axes(t) == 2 then t.a == u.a && r.a == t.a
       else t.a.shape[0] == t.b.shape[0] && u.a.shape[0] == u.b.shape[0] && Stackable(t.a, u.a) && r.a == Cat(t.a, u.a)
  }

  lemma JoinedForm(r: Lora, t: Lora, u: Lora)
    requires Joins(r, t, u)
    ensures Valid(r) && Axes(r) == Axes(t) == Axes(u) && Rank(r) == Rank(t) == Rank(u)
    ensures r.a.shape[Axes(r) - 1] == t.a.shape[Axes(t) - 1] == u.a.shape[Axes(u) - 1]
    ensures Axes(t) > 2 ==> r.a.shape[0] == r.b.shape[0]
  {
    hide Cat, CatShape;
    StackedTail(t.b, u.b);
    if Axes(t) > 2 {
      StackedTail(t.a, u.a);
    }
  }

  lemma JoinedShape(r: Lora, t: Lora, u: Lora)
    requires Joins(r, t, u)
    ensures Valid(r) && Axes(r) == Axes(t) == Axes(u) && Rank(r) == Rank(t) == Rank(u)
    ensures |ShapeOf(t)| > 0 && |ShapeOf(u)| > 0 && ShapeOf(t)[1..] == ShapeOf(u)[1..]
      && ShapeOf(r) == CatShape(ShapeOf(t), ShapeOf(u))
    ensures Axes(t) > 2 ==> r.a.shape[0] == r.b.shape[0]
  {
    JoinedForm(r, t, u);
    StackedTail(t.b, u.b);
    hide Cat, Valid, IsTensor;
    LastReplaced(r.b.shape, t.b.shape, u.b.shape, t.a.shape[Axes(t) - 1]);
  }

  /** Replacing the last length by a common one keeps the shapes joined. */
  lemma LastReplaced(r: Shape, s: Shape, u: Shape, c: nat)
    requires |r| == |s| == |u| >= 2 && r[0] == s[0] + u[0] && forall k :: 0 < k < |s| ==> r[k] == s[k] == u[k]
    ensures var n := |s| - 1; s[n := c][1..] == u[n := c][1..] && r[n := c] == CatShape(s[n := c], u[n := c])
  {
    var n := |s| - 1;
    Tails(s[n := c], u[n := c]);
    var x, z := r[n := c], s[n := c];
    forall k | 0 <= k <= n ensures x[k] == CatShape(z, u[n := c])[k] {
      if k > 0 { assert CatShape(z, u[n := c])[k] == z[1..][k - 1] == z[k]; }
    }
  }

  lemma StackedTail(t: Tensor, u: Tensor)
    requires Stackable(t, u)
    ensures Cat(t, u).shape[0] == t.shape[0] + u.shape[0]
    ensures forall k :: 0 < k < |t.shape| ==> Cat(t, u).shape[k] == t.shape[k] == u.shape[k]
  {
    hide Cat;
    Tails(t.shape, u.shape);
  }

  lemma Tails(s: Shape, u: Shape)
    requires |s| == |u| > 0
    ensures s[1..] == u[1..] ==> forall k :: 0 < k < |s| ==> s[k] == u[k]
    ensures (forall k :: 0 < k < |s| ==> s[k] == u[k]) ==> s[1..] == u[1..]
  {
    if s[1..] == u[1..] {
      assert forall k :: 0 < k < |s| ==> s[k] == s[1..][k - 1] == u[1..][k - 1] == u[k];
    }
  }

  /** Where axis 0 of `a` is not shared, both factors are read at the same place on it. */
  lemma LeadA(t: Lora, ix: Index, k: nat)
    requires Valid(t) && InShape(ix, ShapeOf(t)) && k < Rank(t) && Axes(t) > 2 && t.a.shape[0] == t.b.shape[0]
    ensures IndexA(t, ix, k)[0] == ix[0]
  {
  }

  /** The place of `ix` in the second of two joined tensors. */
  function Below(ix: Index, rows: nat): (r: Index)
    requires |ix| > 0 && rows <= ix[0]
    ensures |r| == |ix| && r[0] == ix[0] - rows && forall k :: 0 < k < |ix| ==> r[k] == ix[k]
  {
    ix[0 := ix[0] - rows]
  }

  lemma SameTail(r: Shape, s: Shape, u: Shape)
    requires |s| == |u| > 0 && s[1..] == u[1..] && r == CatShape(s, u)
    ensures forall k :: 0 < k < |s| ==> r[k] == s[k] == u[k]
  {
    Tails(s, u);
  }

  /** Both ways of joining, in a form the term lemmas share. */
  ghost predicate Joined(r: Lora, t: Lora, u: Lora) {
    && Joins(r, t, u) && Valid(r) && Axes(r) == Axes(t) == Axes(u) && Rank(r) == Rank(t) == Rank(u)
    && (Axes(t) > 2 ==> r.a.shape[0] == r.b.shape[0])
  }

  lemma FirstB(r: Lora, t: Lora, u: Lora, ix: Index, k: nat)
    requires Joined(r, t, u) && InShape(ix, ShapeOf(r)) && InShape(ix, ShapeOf(t)) && k < Rank(t)
    ensures At(r.b, IndexB(r, ix, k)) == At(t.b, IndexB(t, ix, k))
  {
    hide Cat, At, CatShape;
    assert ix[0] < t.b.shape[0];
    CatAt(t.b, u.b, IndexB(r, ix, k));
  }

  lemma FirstA(r: Lora, t: Lora, u: Lora, ix: Index, k: nat)
    requires Joined(r, t, u) && InShape(ix, ShapeOf(r)) && InShape(ix, ShapeOf(t)) && k < Rank(t)
    ensures At(r.a, IndexA(r, ix, k)) == At(t.a, IndexA(t, ix, k))
  {
    hide Cat, At;
    if Axes(t) > 2 {
      LeadA(r, ix, k);
      LeadA(t, ix, k);
      SameTail(r.a.shape, t.a.shape, u.a.shape);
      assert IndexA(r, ix, k) == IndexA(t, ix, k);
      CatAt(t.a, u.a, IndexA(r, ix, k));
    } else {
      assert IndexA(r, ix, k) == IndexA(t, ix, k);
    }
  }

  lemma SecondB(r: Lora, t: Lora, u: Lora, ix: Index, k: nat)
    requires Joined(r, t, u) && InShape(ix, ShapeOf(r)) && k < Rank(u)
    requires ix[0] >= t.b.shape[0] && InShape(Below(ix, t.b.shape[0]), ShapeOf(u))
    ensures At(r.b, IndexB(r, ix, k)) == At(u.b, IndexB(u, Below(ix, t.b.shape[0]), k))
  {
    hide Cat, At, CatShape;
    var jx, rows := Below(ix, t.b.shape[0]), t.b.shape[0];
    CatAt(t.b, u.b, IndexB(r, ix, k));
    assert Below(IndexB(r, ix, k), rows) == IndexB(u, jx, k);
  }

  lemma SecondA(r: Lora, t: Lora, u: Lora, ix: Index, k: nat)
    requires Joined(r, t, u) && InShape(ix, ShapeOf(r)) && k < Rank(u)
    requires ix[0] >= t.b.shape[0] && InShape(Below(ix, t.b.shape[0]), ShapeOf(u))
    ensures At(r.a, IndexA(r, ix, k)) == At(u.a, IndexA(u, Below(ix, t.b.shape[0]), k))
  {
    hide Cat, At;
    var jx, rows := Below(ix, t.b.shape[0]), t.b.shape[0];
    if Axes(t) > 2 {
      LeadA(r, ix, k);
      LeadA(u, jx, k);
      SameTail(r.a.shape, t.a.shape, u.a.shape);
      assert Below(IndexA(r, ix, k), rows) == IndexA(u, jx, k);
      CatAt(t.a, u.a, IndexA(r, ix, k));
    } else {
      assert IndexA(r, ix, k) == IndexA(u, jx, k);
    }
  }

  lemma FirstElement(r: Lora, t: Lora, u: Lora, ix: Index)
    requires Joined(r, t, u) && Valid(r) && Valid(t) && Rank(r) == Rank(t) && InShape(ix, ShapeOf(r))
      && InShape(ix, ShapeOf(t))
    ensures Element(r, ix) == Element(t, ix)
  {
    hide Joined, Joins, Valid, ShapeOf, InShape, At, IndexA, IndexB, Element;
    forall k | 0 <= k < Rank(t) ensures Term(r, ix, k) == Term(t, ix, k) {
      FirstB(r, t, u, ix, k);
      FirstA(r, t, u, ix, k);
    }
    SameElement(r, ix, t, ix);
  }

  lemma SecondElement(r: Lora, t: Lora, u: Lora, ix: Index, rows: nat)
    requires Joined(r, t, u) && Valid(r) && Valid(u) && Rank(r) == Rank(u) && InShape(ix, ShapeOf(r))
      && rows == t.b.shape[0]
    requires |ix| > 0 && ix[0] >= rows && InShape(Below(ix, rows), ShapeOf(u))
    ensures Element(r, ix) == Element(u, Below(ix, rows))
  {
    hide Joined, Joins, Valid, ShapeOf, InShape, At, IndexA, IndexB, Element, Below;
    var jx := Below(ix, rows);
    forall k | 0 <= k < Rank(u) ensures Term(r, ix, k) == Term(u, jx, k) {
      SecondB(r, t, u, ix, k);
      SecondA(r, t, u, ix, k);
    }
    SameElement(r, ix, u, jx);
  }

  lemma JoinedElement(r: Lora, t: Lora, u: Lora, ix: Index)
    requires Joined(r, t, u) && Stackable(Dense(t), Dense(u)) && InShape(ix, ShapeOf(r))
    requires ShapeOf(r) == CatShape(ShapeOf(t), ShapeOf(u)) && t.b.shape[0] == ShapeOf(t)[0]
    requires Valid(r) && Valid(t) && Valid(u) && |ix| > 0 && Rank(r) == Rank(t) == Rank(u)
    ensures At(Cat(Dense(t), Dense(u)), ix) == Element(r, ix)
  {
    hide Joins, Rank, Joined, Valid, ShapeOf, Cat, At, Dense, Element, InShape, CatShape;
    var rows := t.b.shape[0];
    CatAt(Dense(t), Dense(u), ix);
    if ix[0] < rows {
      DenseAt(t, ix);
      FirstElement(r, t, u, ix);
    } else {
      DenseAt(u, Below(ix, rows));
      SecondElement(r, t, u, ix, rows);
    }
  }

  /** Joining the factors joins the products. */
  lemma JoinedDense(r: Lora, t: Lora, u: Lora)
    requires Joins(r, t, u)
    ensures Valid(r) && Stackable(Dense(t), Dense(u)) && Dense(r) == Cat(Dense(t), Dense(u))
  {
    JoinedShape(r, t, u);
    JoinedRows(r, t, u);
    assert Joined(r, t, u);
    hide Cat, At, Dense, Element, Joins, Joined;
    var d := Cat(Dense(t), Dense(u));
    forall ix: Index | InShape(ix, d.shape) ensures At(d, ix) == Element(r, ix) {
      JoinedElement(r, t, u, ix);
    }
    IsDense(r, d);
  }

  lemma JoinedRows(r: Lora, t: Lora, u: Lora)
    requires Joins(r, t, u)
    ensures t.b.shape[0] == ShapeOf(t)[0]
  {
  }

  // ---- Any number of tensors ----

  lemma RestOf(ts: seq<Lora>)
    requires |ts| > 1 && forall k :: 0 <= k < |ts| ==> Valid(ts[k])
    ensures FactorsA(ts)[1..] == FactorsA(ts[1..]) && FactorsB(ts)[1..] == FactorsB(ts[1..])
      && Denses(ts)[1..] == Denses(ts[1..])
  {
  }

  lemma JoinMatrices(t: Lora, u: Lora)
    requires Valid(t) && Valid(u) && Axes(t) == Axes(u) == 2 && t.a == u.a
    ensures Stackable(t.b, u.b) && Stackable(Dense(t), Dense(u))
    ensures var r := Lora(t.a, Cat(t.b, u.b)); Valid(r) && Axes(r) == 2 && Dense(r) == Cat(Dense(t), Dense(u))
  {
    hide Cat, Dense;
    JoinedDense(Lora(t.a, Cat(t.b, u.b)), t, u);
  }

  /** Matrices with the same `a`. */
  lemma {:induction false} MatricesDense(ts: seq<Lora>)
    requires ts != [] && (forall k :: 0 <= k < |ts| ==> Valid(ts[k])) && SameA(ts) && Axes(ts[0]) == 2
    ensures CatTensors(FactorsB(ts)).Ok? && CatTensors(Denses(ts)).Ok?
    ensures var r := Lora(ts[0].a, CatTensors(FactorsB(ts)).value);
      Valid(r) && Axes(r) == 2 && Dense(r) == CatTensors(Denses(ts)).value
  {
    hide Cat, Dense;
    if |ts| == 1 {
      assert Lora(ts[0].a, ts[0].b) == ts[0];
    } else {
      RestOf(ts);
      assert SameA(ts[1..]) && ts[1..][0] == ts[1];
      MatricesDense(ts[1..]);
      JoinMatrices(ts[0], Lora(ts[0].a, CatTensors(FactorsB(ts[1..])).value));
    }
  }

  predicate OwnLead(t: Lora)
    requires Valid(t)
  {
    t.a.shape[0] == t.b.shape[0]
  }

  predicate OwnLeads(ts: seq<Lora>)
    requires forall k :: 0 <= k < |ts| ==> Valid(ts[k])
  {
    forall k :: 0 <= k < |ts| ==> OwnLead(ts[k])
  }

  /** Tensors with leading axes, none of which shares axis 0 of `a`. */
  lemma {:induction false} StacksDense(ts: seq<Lora>)
    requires ts != [] && (forall k :: 0 <= k < |ts| ==> Valid(ts[k])) && OwnLeads(ts) && Axes(ts[0]) > 2
    requires CatTensors(FactorsA(ts)).Ok? && CatTensors(FactorsB(ts)).Ok?
    ensures var r := Lora(CatTensors(FactorsA(ts)).value, CatTensors(FactorsB(ts)).value);
      && Valid(r) && OwnLead(r) && Axes(r) == Axes(ts[0])
      && CatTensors(Denses(ts)).Ok? && Dense(r) == CatTensors(Denses(ts)).value
  {
    hide Cat, Dense;
    var r := Lora(CatTensors(FactorsA(ts)).value, CatTensors(FactorsB(ts)).value);
    if |ts| == 1 {
      assert r == ts[0];
    } else {
      RestOf(ts);
      var rest := CatTensors(FactorsB(ts[1..])).value;
      SameAxes(ts[1..]);
      StacksDense(ts[1..]);
      var u := Lora(CatTensors(FactorsA(ts[1..])).value, rest);
      JoinedShape(r, ts[0], u);
      JoinedDense(r, ts[0], u);
    }
  }

  /** Concatenation keeps the number of axes. */
  lemma {:induction false} SameAxes(ts: seq<Lora>)
    requires ts != [] && (forall k :: 0 <= k < |ts| ==> Valid(ts[k])) && CatTensors(FactorsB(ts)).Ok?
    ensures |CatTensors(FactorsB(ts)).value.shape| == Axes(ts[0])
  {
    hide Cat;
  }

  /** The length of axis 0, added up. */
  function Rows(ts: seq<Tensor>): nat
    requires forall k :: 0 <= k < |ts| ==> |ts[k].shape| > 0
  {
    if ts == [] then 0 else ts[0].shape[0] + Rows(ts[1..])
  }

  lemma {:induction false} CatRows(ts: seq<Tensor>)
    requires ts != [] && (forall k :: 0 <= k < |ts| ==> IsTensor(ts[k]) && |ts[k].shape| > 0) && CatTensors(ts).Ok?
    ensures |CatTensors(ts).value.shape| > 0 && CatTensors(ts).value.shape[0] == Rows(ts)
  {
    hide Cat;
    if |ts| == 1 {
      assert Rows(ts[1..]) == 0;
    } else {
      CatRows(ts[1..]);
    }
  }

  /** Without empty tensors, `a` is at most as long as `b` on axis 0, and as long only if no one shares it. */
  lemma {:induction false} LeadTotals(ts: seq<Lora>)
    requires forall k :: 0 <= k < |ts| ==> Valid(ts[k]) && ts[k].b.shape[0] > 0 && Axes(ts[k]) > 2
    ensures |ts| <= Rows(FactorsA(ts)) <= Rows(FactorsB(ts))
    ensures Rows(FactorsA(ts)) == Rows(FactorsB(ts)) <==> OwnLeads(ts)
  {
    if ts != [] {
      assert FactorsA(ts)[1..] == FactorsA(ts[1..]) && FactorsB(ts)[1..] == FactorsB(ts[1..]);
      LeadTotals(ts[1..]);
      assert OwnLeads(ts) <==> OwnLead(ts[0]) && OwnLeads(ts[1..]);
    }
  }

  // ---- When it succeeds ----

  /** All tensors have as many axes, and agree on all but the first. */
  predicate SameTails(ts: seq<Tensor>)
    requires ts != []
  {
    forall k :: 0 <= k < |ts| ==> |ts[k].shape| == |ts[0].shape| > 0 && ts[k].shape[1..] == ts[0].shape[1..]
  }

  lemma {:induction false} CatSucceeds(ts: seq<Tensor>)
    requires ts != [] && (forall k :: 0 <= k < |ts| ==> IsTensor(ts[k]) && |ts[k].shape| > 0)
    ensures CatTensors(ts).Ok? <==> SameTails(ts)
    ensures CatTensors(ts).Ok? ==>
      |CatTensors(ts).value.shape| == |ts[0].shape| && CatTensors(ts).value.shape[1..] == ts[0].shape[1..]
  {
    hide Cat, SameTails;
    if |ts| == 1 {
      OneTail(ts);
    } else {
      var rest := ts[1..];
      CatSucceeds(rest);
      TailsUnfold(ts);
      if CatTensors(rest).Ok? && Stackable(ts[0], CatTensors(rest).value) {
        assert CatShape(ts[0].shape, CatTensors(rest).value.shape)[1..] == ts[0].shape[1..];
      }
    }
  }

  lemma OneTail(ts: seq<Tensor>)
    requires |ts| == 1 && |ts[0].shape| > 0
    ensures SameTails(ts)
  {
  }

  lemma TailsUnfold(ts: seq<Tensor>)
    requires |ts| > 1 && forall k :: 0 <= k < |ts| ==> |ts[k].shape| > 0
    ensures SameTails(ts) <==>
      SameTails(ts[1..]) && |ts[0].shape| == |ts[1].shape| && ts[0].shape[1..] == ts[1].shape[1..]
  {
    if SameTails(ts[1..]) && |ts[0].shape| == |ts[1].shape| && ts[0].shape[1..] == ts[1].shape[1..] {
      forall k | 0 <= k < |ts| ensures |ts[k].shape| == |ts[0].shape| > 0 && ts[k].shape[1..] == ts[0].shape[1..] {
        if k > 0 { assert ts[k] == ts[1..][k - 1]; }
      }
    }
    if SameTails(ts) {
      assert forall k :: 0 <= k < |ts| - 1 ==> ts[1..][k] == ts[k + 1];
    }
  }

  /** With leading axes: exactly when both factors agree on all axes but the first. */
  lemma StacksSucceed(ts: seq<Lora>)
    requires ts != [] && (forall k :: 0 <= k < |ts| ==> Valid(ts[k])) && Axes(ts[0]) > 2
    ensures CatLoras(ts).Ok? <==> SameTails(FactorsA(ts)) && SameTails(FactorsB(ts))
    ensures CatLoras(ts).Ok? ==>
      var r := CatLoras(ts).value;
      && CatTensors(FactorsA(ts)).Ok? && CatTensors(FactorsB(ts)).Ok?
      && r == Lora(CatTensors(FactorsA(ts)).value, CatTensors(FactorsB(ts)).value)
      && |r.a.shape| == |r.b.shape| == Axes(ts[0])
      && (forall k :: 0 < k < Axes(ts[0]) ==> r.a.shape[k] == ts[0].a.shape[k] && r.b.shape[k] == ts[0].b.shape[k])
  {
    hide CatTensors, SameTails;
    CatSucceeds(FactorsA(ts));
    CatSucceeds(FactorsB(ts));
    if CatTensors(FactorsA(ts)).Ok? && CatTensors(FactorsB(ts)).Ok? {
      Tails(CatTensors(FactorsA(ts)).value.shape, ts[0].a.shape);
      Tails(CatTensors(FactorsB(ts)).value.shape, ts[0].b.shape);
    }
  }

  /**
   With leading axes the factors of the result fit each other exactly when their first axes are as
   long, or that of `a` has length one. For tensors that are not empty this means that there is only
   one of them, or none shares axis 0.
   */
  lemma CatSharedLead(ts: seq<Lora>)
    requires ts != [] && (forall k :: 0 <= k < |ts| ==> Valid(ts[k])) && Axes(ts[0]) > 2 && CatLoras(ts).Ok?
    ensures (forall k :: 0 <= k < |ts| ==> Axes(ts[k]) > 2)
    ensures Valid(CatLoras(ts).value) <==> Rows(FactorsA(ts)) == 1 || Rows(FactorsA(ts)) == Rows(FactorsB(ts))
    ensures (forall k :: 0 <= k < |ts| ==> ts[k].b.shape[0] > 0) ==>
      (Valid(CatLoras(ts).value) <==> |ts| == 1 || OwnLeads(ts))
  {
    hide Cat, CatTensors, OwnLeads, Rows, CatLoras, SameTails;
    StacksSucceed(ts);
    AllAxes(ts);
    CatRows(FactorsA(ts));
    CatRows(FactorsB(ts));
    if forall k :: 0 <= k < |ts| ==> ts[k].b.shape[0] > 0 {
      LeadTotals(ts);
      if |ts| == 1 {
        OneTensor(ts);
      }
    }
  }

  lemma AllAxes(ts: seq<Lora>)
    requires ts != [] && (forall k :: 0 <= k < |ts| ==> Valid(ts[k])) && SameTails(FactorsB(ts))
    ensures forall k :: 0 <= k < |ts| ==> Axes(ts[k]) == Axes(ts[0])
  {
    forall k | 0 <= k < |ts| ensures Axes(ts[k]) == Axes(ts[0]) {
      assert |FactorsB(ts)[k].shape| == |FactorsB(ts)[0].shape|;
    }
  }

  lemma OneTensor(ts: seq<Lora>)
    requires |ts| == 1 && Valid(ts[0])
    ensures CatTensors(FactorsA(ts)) == Ok(ts[0].a) && CatTensors(FactorsB(ts)) == Ok(ts[0].b)
    ensures CatTensors(Denses(ts)) == Ok(Dense(ts[0]))
  {
  }

  /** Two tensors of two rows with a shared `a`: two entries of `a` for four rows. */
  lemma CatFails()
    ensures var t := SHARED_ROWS; Valid(t) && CatLoras([t, t]).Ok? && !Valid(CatLoras([t, t]).value)
  {
    SharedRows();
    var t := SHARED_ROWS;
    var ts := [t, t];
    hide CatLoras, Rows, CatTensors;
    StacksSucceed(ts);
    assert FactorsA(ts) == [t.a, t.a] && FactorsB(ts) == [t.b, t.b];
    CatSharedLead(ts);
    assert !OwnLead(ts[0]);
  }
}
