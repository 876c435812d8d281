/**
  The results about `_canonicalize_boolean_expression`, for every well-formed
  expression: the canonical text keeps the meaning and with it the truth, equal
  canonical texts mean the same, and canonicalizing is idempotent. Only the way
  back, from equal meanings to equal texts, asks that the code reads both
  expressions as what they mean.
*/
module SqlMeanings {
  import opened SqlTrees
  import opened SqlSegments
  import opened SqlTokens
  import opened SqlCanonical
  import opened SqlMisreadings
  import opened SqlPasses
  import opened SqlLayers
  import opened SqlOutputs

  /** The canonical text spells out a well-formed expression of the same meaning. */
  lemma CanonicalKeepsMeaning(c: Cst) returns (canonical: Cst)
    requires WellFormed(c)
    ensures WellFormed(canonical) && Render(canonical) == Canonical(Render(c), 0)
    ensures Meaning(canonical) == Meaning(c)
  {
    canonical := CanonicalCst(c);
    CanonicalSpells(c);
  }

  /** So it is true under exactly the assignments that make the original true. */
  lemma CanonicalKeepsTruth(c: Cst, env: string -> bool) returns (canonical: Cst)
    requires WellFormed(c)
    ensures WellFormed(canonical) && Render(canonical) == Canonical(Render(c), 0)
    ensures Eval(Raw(canonical), env) == Eval(Raw(c), env)
  {
    canonical := CanonicalKeepsMeaning(c);
    FlattenEval(Raw(c), env);
    FlattenEval(Raw(canonical), env);
  }

  /**
    Equal canonical texts mean equal and/or trees. Expressions with equal trees
    get equal canonical texts if the code reads both as what they mean.
  */
  lemma CanonicalIffSameMeaning(c: Cst, d: Cst)
    requires WellFormed(c) && WellFormed(d)
    ensures Canonical(Render(c), 0) == Canonical(Render(d), 0) ==> Meaning(c) == Meaning(d)
    ensures !Misread(c, false, false) && !Misread(d, false, false) ==>
      (Canonical(Render(c), 0) == Canonical(Render(d), 0) <==> Meaning(c) == Meaning(d))
  {
    var k := CanonicalKeepsMeaning(c);
    var l := CanonicalKeepsMeaning(d);
    ParseRender(k);
    ParseRender(l);
    if !Misread(c, false, false) && !Misread(d, false, false) {
      CanonicalOfExpression(c);
      CanonicalOfExpression(d);
    }
  }

  /** Canonicalizing again changes nothing. */
  lemma CanonicalIsIdempotent(c: Cst)
    requires WellFormed(c)
    ensures Canonical(Canonical(Render(c), 0), 0) == Canonical(Render(c), 0)
  {
    var layer := InnerLayer(c);
    var out := Out(layer, AtOr);
    InnerLayerOk(c);
    CanonicalSpells(c);
    OutProper(layer, true, AtOr);
    OutQuiet(layer, true, AtOr, AtOr, []);
    OutLength(layer, true, AtOr);
    if |layer| == 1 { SingleOut(layer); }
    hide InnerLayer, Build;
    BuildLayer(out);
    LayerCanonical(out);
    UnchangedPass(AtOr, Texts(out));
  }
}
