/** The sizes of the information objects, from the fields the standard composes them of. */
module AsduSizes {
  import opened Octets
  import opened AsduCodec

  // the information elements of section 7.2.6 of IEC 60870-5-101 and the fields of the file types, in octets

  const SIQ := 1
  const DIQ := 1
  const VTI := 1
  const QDS := 1
  const BSI := 4
  const NVA := 2
  const SVA := 2
  const R32 := 4
  const BCR := 5
  const SCD := 4
  const SEP := 1
  const SPE := 1
  const OCI := 1
  const QDP := 1
  const CP16 := 2
  const CP24 := 3
  const CP56 := 7
  const SCO := 1
  const DCO := 1
  const RCO := 1
  const QOS := 1
  const COI := 1
  const QOI := 1
  const QCC := 1
  const QPM := 1
  const QPA := 1
  const QRP := 1
  const FBP := 2
  const TSC := 2
  const NOF := 2
  const NOS := 1
  const LOF := 3
  const FRQ := 1
  const SRQ := 1
  const SCQ := 1
  const LSQ := 1
  const CHS := 1
  const AFQ := 1
  const SOF := 1

  /** Process information. */
  function Plain(id: nat): Option<nat> {
    match id
    case 1 => Some(SIQ)
    case 3 => Some(DIQ)
    case 5 => Some(VTI + QDS)
    case 7 => Some(BSI + QDS)
    case 9 => Some(NVA + QDS)
    case 11 => Some(SVA + QDS)
    case 13 => Some(R32 + QDS)
    case 15 => Some(BCR)
    case 20 => Some(SCD + QDS)
    case 21 => Some(NVA)
    case _ => None
  }

  /** With the short time tag. */
  function Tagged24(id: nat): Option<nat> {
    match id
    case 2 => Some(SIQ + CP24)
    case 4 => Some(DIQ + CP24)
    case 6 => Some(VTI + QDS + CP24)
    case 8 => Some(BSI + QDS + CP24)
    case 10 => Some(NVA + QDS + CP24)
    case 12 => Some(SVA + QDS + CP24)
    case 14 => Some(R32 + QDS + CP24)
    case 16 => Some(BCR + CP24)
    case _ => None
  }

  /** With the long time tag. */
  function Tagged56(id: nat): Option<nat> {
    match id
    case 30 => Some(SIQ + CP56)
    case 31 => Some(DIQ + CP56)
    case 32 => Some(VTI + QDS + CP56)
    case 33 => Some(BSI + QDS + CP56)
    case 34 => Some(NVA + QDS + CP56)
    case 35 => Some(SVA + QDS + CP56)
    case 36 => Some(R32 + QDS + CP56)
    case 37 => Some(BCR + CP56)
    case _ => None
  }

  /** Events of protection equipment, with an elapsed time and a time tag. */
  function Protection(id: nat): Option<nat> {
    match id
    case 17 => Some(SEP + CP16 + CP24)
    case 18 => Some(SPE + QDP + CP16 + CP24)
    case 19 => Some(OCI + QDP + CP16 + CP24)
    case 38 => Some(SEP + CP16 + CP56)
    case 39 => Some(SPE + QDP + CP16 + CP56)
    case 40 => Some(OCI + QDP + CP16 + CP56)
    case _ => None
  }

  /** Commands. */
  function Command(id: nat): Option<nat> {
    match id
    case 45 => Some(SCO)
    case 46 => Some(DCO)
    case 47 => Some(RCO)
    case 48 => Some(NVA + QOS)
    case 49 => Some(SVA + QOS)
    case 50 => Some(R32 + QOS)
    case 51 => Some(BSI)
    case _ => None
  }

  /** Commands with a time tag. */
  function Command56(id: nat): Option<nat> {
    match id
    case 58 => Some(SCO + CP56)
    case 59 => Some(DCO + CP56)
    case 60 => Some(RCO + CP56)
    case 61 => Some(NVA + QOS + CP56)
    case 62 => Some(SVA + QOS + CP56)
    case 63 => Some(R32 + QOS + CP56)
    case 64 => Some(BSI + CP56)
    case _ => None
  }

  /** System information. */
  function System(id: nat): Option<nat> {
    match id
    case 70 => Some(COI)
    case 100 => Some(QOI)
    case 101 => Some(QCC)
    case 102 => Some(0)
    case 103 => Some(CP56)
    case 104 => Some(FBP)
    case 105 => Some(QRP)
    case 106 => Some(CP16)
    case 107 => Some(TSC + CP56)
    case _ => None
  }

  /** Parameters. */
  function Parameter(id: nat): Option<nat> {
    match id
    case 110 => Some(NVA + QPM)
    case 111 => Some(SVA + QPM)
    case 112 => Some(R32 + QPM)
    case 113 => Some(QPA)
    case _ => None
  }

  /** Files; a segment (125) carries its own size. */
  function OfFiles(id: nat): Option<nat> {
    match id
    case 120 => Some(NOF + LOF + FRQ)
    case 121 => Some(NOF + NOS + LOF + SRQ)
    case 122 => Some(NOF + NOS + SCQ)
    case 123 => Some(NOF + NOS + LSQ + CHS)
    case 124 => Some(NOF + NOS + AFQ)
    case 126 => Some(NOF + LOF + SOF + CP56)
    case _ => None
  }

  function ComposedOf(id: nat): Option<nat> {
    if Plain(id).Some? then Plain(id)
    else if Tagged24(id).Some? then Tagged24(id)
    else if Tagged56(id).Some? then Tagged56(id)
    else if Protection(id).Some? then Protection(id)
    else if Command(id).Some? then Command(id)
    else if Command56(id).Some? then Command56(id)
    else if System(id).Some? then System(id)
    else if Parameter(id).Some? then Parameter(id)
    else OfFiles(id)
  }

  lemma PlainSizes(id: nat)
    requires Plain(id).Some?
    ensures GetInfoObjSize(id) == Plain(id)
  {
  }

  lemma Tagged24Sizes(id: nat)
    requires Tagged24(id).Some?
    ensures GetInfoObjSize(id) == Tagged24(id)
  {
  }

  lemma Tagged56Sizes(id: nat)
    requires Tagged56(id).Some?
    ensures GetInfoObjSize(id) == Tagged56(id)
  {
  }

  lemma ProtectionSizes(id: nat)
    requires Protection(id).Some?
    ensures GetInfoObjSize(id) == Protection(id)
  {
  }

  lemma CommandSizes(id: nat)
    requires Command(id).Some?
    ensures GetInfoObjSize(id) == Command(id)
  {
  }

  lemma Command56Sizes(id: nat)
    requires Command56(id).Some?
    ensures GetInfoObjSize(id) == Command56(id)
  {
  }

  lemma SystemSizes(id: nat)
    requires System(id).Some?
    ensures GetInfoObjSize(id) == System(id)
  {
  }

  lemma ParameterSizes(id: nat)
    requires Parameter(id).Some?
    ensures GetInfoObjSize(id) == Parameter(id)
  {
  }

  lemma OfFilesSizes(id: nat)
    requires OfFiles(id).Some?
    ensures GetInfoObjSize(id) == OfFiles(id)
  {
  }

  lemma NoOthers(id: nat)
    requires ComposedOf(id) == None
    ensures GetInfoObjSize(id) == None
  {
  }

  /** The table has exactly the types of the standard but the segment, each with the size of its fields. */
  lemma SizesAreTheirFields(id: nat)
    ensures GetInfoObjSize(id) == ComposedOf(id)
  {
    hide GetInfoObjSize, Plain, Tagged24, Tagged56, Protection, Command, Command56, System, Parameter, OfFiles;
    if Plain(id).Some? {
      PlainSizes(id);
    } else if Tagged24(id).Some? {
      Tagged24Sizes(id);
    } else if Tagged56(id).Some? {
      Tagged56Sizes(id);
    } else if Protection(id).Some? {
      ProtectionSizes(id);
    } else if Command(id).Some? {
      CommandSizes(id);
    } else if Command56(id).Some? {
      Command56Sizes(id);
    } else if System(id).Some? {
      SystemSizes(id);
    } else if Parameter(id).Some? {
      ParameterSizes(id);
    } else if OfFiles(id).Some? {
      OfFilesSizes(id);
    } else {
      NoOthers(id);
    }
  }
}
