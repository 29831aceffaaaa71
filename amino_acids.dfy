/** The amino-acid types of chemestry/AminoAcid.java and their indices. */
module AminoAcids {
  /** The 22 types, in declaration order (line 5). */
  datatype AminoType =
    ALA | ARG | ASN | ASP | CYS | GLU | GLN | GLY | HIS | ILE | LEU |
    LYS | MET | PHE | PRO | SER | THR | TRP | TYR | VAL | SEC | PYL

  /** `count`, line 6. */
  const Count: nat := 22

  /** Every type once, in declaration order. */
  const Types: seq<AminoType> :=
    [ALA, ARG, ASN, ASP, CYS, GLU, GLN, GLY, HIS, ILE, LEU,
     LYS, MET, PHE, PRO, SER, THR, TRP, TYR, VAL, SEC, PYL]

  /** typeToInt, lines 12-39: the declaration position of the type. Every
      type has a case, so the closing throw is never reached; the index
      lies below `count` and names the type back. */
  function TypeToInt(t: AminoType): (r: nat)
    ensures r < Count && r < |Types| && Types[r] == t
  {
    match t
    case ALA => 0
    case ARG => 1
    case ASN => 2
    case ASP => 3
    case CYS => 4
    case GLU => 5
    case GLN => 6
    case GLY => 7
    case HIS => 8
    case ILE => 9
    case LEU => 10
    case LYS => 11
    case MET => 12
    case PHE => 13
    case PRO => 14
    case SER => 15
    case THR => 16
    case TRP => 17
    case TYR => 18
    case VAL => 19
    case SEC => 20
    case PYL => 21
  }

  /** Distinct types get distinct indices, and every index below `count`
      is used: typeToInt is a bijection onto 0..21. */
  lemma TypeToIntBijective()
    ensures forall a, b :: TypeToInt(a) == TypeToInt(b) ==> a == b
    ensures forall i :: 0 <= i < Count ==> TypeToInt(Types[i]) == i
  {
    forall a, b | TypeToInt(a) == TypeToInt(b)
      ensures a == b
    {
      assert Types[TypeToInt(a)] == a && Types[TypeToInt(b)] == b;
    }
  }
}
