/**
 The tables of ct_init, filled once and only read afterwards.
 */
module CtInit {
  import opened Sums
  import opened Inflate
  import opened SymbolTables
  import opened TokenCoding
  import opened CodeAssignment

  class Tables {
    const lengthCode: seq<nat>
    const baseLength: seq<nat>
    const distCode: seq<nat>
    const baseDist: seq<nat>
    // the static trees: codes and lengths
    const fcL: array<nat>
    const dlL: array<nat>
    const fcD: array<nat>
    const dlD: array<nat>

    ghost function Repr(): set<object>
    {
      {fcL, dlL, fcD, dlD}
    }

    ghost function M(): Maps
    {
      Maps(lengthCode, baseLength, distCode, baseDist)
    }

    ghost predicate Valid()
      reads fcL, dlL, fcD, dlD
    {
      ValidMaps(M()) && StaticTrees(fcL[..], dlL[..], fcD[..], dlD[..])
    }

    constructor ()
      ensures Valid() && fresh(Repr())
    {
      hide ValidMaps, StaticTrees;
      var m := NewMaps();
      lengthCode, baseLength, distCode, baseDist := m.lengthCode, m.baseLength, m.distCode, m.baseDist;
      var fl, ll, fd, dd := NewStaticTrees();
      fcL, dlL, fcD, dlD := fl, ll, fd, dd;
    }
  }

  /** The length and distance tables. */
  method NewMaps() returns (m: Maps)
    ensures ValidMaps(m)
  {
    hide LengthsDone, DistsDone, DistFilled;
    var lengths := new nat[256](_ => 0);
    var bases := new nat[LENGTH_CODES](_ => 0);
    InitLengths(lengths, bases);
    ghost var lc, bl := lengths[..], bases[..];
    var dists := new nat[512](_ => 0);
    var starts := new nat[D_CODES](_ => 0);
    InitNearDists(dists, starts);
    InitFarDists(dists, starts);
    assert lengths[..] == lc && bases[..] == bl;
    m := Maps(lengths[..], bases[..], dists[..], starts[..]);
  }

  /** The static trees. */
  method NewStaticTrees() returns (fcL: array<nat>, dlL: array<nat>, fcD: array<nat>, dlD: array<nat>)
    ensures StaticTrees(fcL[..], dlL[..], fcD[..], dlD[..]) && fresh({fcL, dlL, fcD, dlD})
  {
    hide CodesSet, CodeSet, FixedLiteralLengths, FixedDistanceLengths;
    fcL, dlL := new nat[288](_ => 0), new nat[288](_ => 0);
    var blCount := new nat[MAX_BITS + 1](_ => 0);
    InitStaticLiterals(fcL, dlL, blCount);
    ghost var fl, dl := fcL[..], dlL[..];
    fcD, dlD := new nat[D_CODES](_ => 0), new nat[D_CODES](_ => 0);
    InitStaticDists(fcD, dlD);
    assert fcL[..] == fl && dlL[..] == dl;
  }
}
