/**
  The lookup table of crc32c.c, as it stands in the source, and the table that the reflected
  polynomial 0x82F63B78 gives. They differ at indices 190 and 191.
*/
module CrcTable {

  const POLY: bv32 := 0x82F63B78

  function Row0(j: bv8): bv32 {
    match j
    case 0x0 => 0x00000000
    case 0x1 => 0xF26B8303
    case 0x2 => 0xE13B70F7
    case 0x3 => 0x1350F3F4
    case 0x4 => 0xC79A971F
    case 0x5 => 0x35F1141C
    case 0x6 => 0x26A1E7E8
    case 0x7 => 0xD4CA64EB
    case 0x8 => 0x8AD958CF
    case 0x9 => 0x78B2DBCC
    case 0xA => 0x6BE22838
    case 0xB => 0x9989AB3B
    case 0xC => 0x4D43CFD0
    case 0xD => 0xBF284CD3
    case 0xE => 0xAC78BF27
    case _ => 0x5E133C24
  }

  function Row1(j: bv8): bv32 {
    match j
    case 0x0 => 0x105EC76F
    case 0x1 => 0xE235446C
    case 0x2 => 0xF165B798
    case 0x3 => 0x030E349B
    case 0x4 => 0xD7C45070
    case 0x5 => 0x25AFD373
    case 0x6 => 0x36FF2087
    case 0x7 => 0xC494A384
    case 0x8 => 0x9A879FA0
    case 0x9 => 0x68EC1CA3
    case 0xA => 0x7BBCEF57
    case 0xB => 0x89D76C54
    case 0xC => 0x5D1D08BF
    case 0xD => 0xAF768BBC
    case 0xE => 0xBC267848
    case _ => 0x4E4DFB4B
  }

  function Row2(j: bv8): bv32 {
    match j
    case 0x0 => 0x20BD8EDE
    case 0x1 => 0xD2D60DDD
    case 0x2 => 0xC186FE29
    case 0x3 => 0x33ED7D2A
    case 0x4 => 0xE72719C1
    case 0x5 => 0x154C9AC2
    case 0x6 => 0x061C6936
    case 0x7 => 0xF477EA35
    case 0x8 => 0xAA64D611
    case 0x9 => 0x580F5512
    case 0xA => 0x4B5FA6E6
    case 0xB => 0xB93425E5
    case 0xC => 0x6DFE410E
    case 0xD => 0x9F95C20D
    case 0xE => 0x8CC531F9
    case _ => 0x7EAEB2FA
  }

  function Row3(j: bv8): bv32 {
    match j
    case 0x0 => 0x30E349B1
    case 0x1 => 0xC288CAB2
    case 0x2 => 0xD1D83946
    case 0x3 => 0x23B3BA45
    case 0x4 => 0xF779DEAE
    case 0x5 => 0x05125DAD
    case 0x6 => 0x1642AE59
    case 0x7 => 0xE4292D5A
    case 0x8 => 0xBA3A117E
    case 0x9 => 0x4851927D
    case 0xA => 0x5B016189
    case 0xB => 0xA96AE28A
    case 0xC => 0x7DA08661
    case 0xD => 0x8FCB0562
    case 0xE => 0x9C9BF696
    case _ => 0x6EF07595
  }

  function Row4(j: bv8): bv32 {
    match j
    case 0x0 => 0x417B1DBC
    case 0x1 => 0xB3109EBF
    case 0x2 => 0xA0406D4B
    case 0x3 => 0x522BEE48
    case 0x4 => 0x86E18AA3
    case 0x5 => 0x748A09A0
    case 0x6 => 0x67DAFA54
    case 0x7 => 0x95B17957
    case 0x8 => 0xCBA24573
    case 0x9 => 0x39C9C670
    case 0xA => 0x2A993584
    case 0xB => 0xD8F2B687
    case 0xC => 0x0C38D26C
    case 0xD => 0xFE53516F
    case 0xE => 0xED03A29B
    case _ => 0x1F682198
  }

  function Row5(j: bv8): bv32 {
    match j
    case 0x0 => 0x5125DAD3
    case 0x1 => 0xA34E59D0
    case 0x2 => 0xB01EAA24
    case 0x3 => 0x42752927
    case 0x4 => 0x96BF4DCC
    case 0x5 => 0x64D4CECF
    case 0x6 => 0x77843D3B
    case 0x7 => 0x85EFBE38
    case 0x8 => 0xDBFC821C
    case 0x9 => 0x2997011F
    case 0xA => 0x3AC7F2EB
    case 0xB => 0xC8AC71E8
    case 0xC => 0x1C661503
    case 0xD => 0xEE0D9600
    case 0xE => 0xFD5D65F4
    case _ => 0x0F36E6F7
  }

  function Row6(j: bv8): bv32 {
    match j
    case 0x0 => 0x61C69362
    case 0x1 => 0x93AD1061
    case 0x2 => 0x80FDE395
    case 0x3 => 0x72966096
    case 0x4 => 0xA65C047D
    case 0x5 => 0x5437877E
    case 0x6 => 0x4767748A
    case 0x7 => 0xB50CF789
    case 0x8 => 0xEB1FCBAD
    case 0x9 => 0x197448AE
    case 0xA => 0x0A24BB5A
    case 0xB => 0xF84F3859
    case 0xC => 0x2C855CB2
    case 0xD => 0xDEEEDFB1
    case 0xE => 0xCDBE2C45
    case _ => 0x3FD5AF46
  }

  function Row7(j: bv8): bv32 {
    match j
    case 0x0 => 0x7198540D
    case 0x1 => 0x83F3D70E
    case 0x2 => 0x90A324FA
    case 0x3 => 0x62C8A7F9
    case 0x4 => 0xB602C312
    case 0x5 => 0x44694011
    case 0x6 => 0x5739B3E5
    case 0x7 => 0xA55230E6
    case 0x8 => 0xFB410CC2
    case 0x9 => 0x092A8FC1
    case 0xA => 0x1A7A7C35
    case 0xB => 0xE811FF36
    case 0xC => 0x3CDB9BDD
    case 0xD => 0xCEB018DE
    case 0xE => 0xDDE0EB2A
    case _ => 0x2F8B6829
  }

  function Row8(j: bv8): bv32 {
    match j
    case 0x0 => 0x82F63B78
    case 0x1 => 0x709DB87B
    case 0x2 => 0x63CD4B8F
    case 0x3 => 0x91A6C88C
    case 0x4 => 0x456CAC67
    case 0x5 => 0xB7072F64
    case 0x6 => 0xA457DC90
    case 0x7 => 0x563C5F93
    case 0x8 => 0x082F63B7
    case 0x9 => 0xFA44E0B4
    case 0xA => 0xE9141340
    case 0xB => 0x1B7F9043
    case 0xC => 0xCFB5F4A8
    case 0xD => 0x3DDE77AB
    case 0xE => 0x2E8E845F
    case _ => 0xDCE5075C
  }

  function Row9(j: bv8): bv32 {
    match j
    case 0x0 => 0x92A8FC17
    case 0x1 => 0x60C37F14
    case 0x2 => 0x73938CE0
    case 0x3 => 0x81F80FE3
    case 0x4 => 0x55326B08
    case 0x5 => 0xA759E80B
    case 0x6 => 0xB4091BFF
    case 0x7 => 0x466298FC
    case 0x8 => 0x1871A4D8
    case 0x9 => 0xEA1A27DB
    case 0xA => 0xF94AD42F
    case 0xB => 0x0B21572C
    case 0xC => 0xDFEB33C7
    case 0xD => 0x2D80B0C4
    case 0xE => 0x3ED04330
    case _ => 0xCCBBC033
  }

  function RowA(j: bv8): bv32 {
    match j
    case 0x0 => 0xA24BB5A6
    case 0x1 => 0x502036A5
    case 0x2 => 0x4370C551
    case 0x3 => 0xB11B4652
    case 0x4 => 0x65D122B9
    case 0x5 => 0x97BAA1BA
    case 0x6 => 0x84EA524E
    case 0x7 => 0x7681D14D
    case 0x8 => 0x2892ED69
    case 0x9 => 0xDAF96E6A
    case 0xA => 0xC9A99D9E
    case 0xB => 0x3BC21E9D
    case 0xC => 0xEF087A76
    case 0xD => 0x1D63F975
    case 0xE => 0x0E330A81
    case _ => 0xFC588982
  }

  function RowB(j: bv8): bv32 {
    match j
    case 0x0 => 0xB21572C9
    case 0x1 => 0x407EF1CA
    case 0x2 => 0x532E023E
    case 0x3 => 0xA145813D
    case 0x4 => 0x758FE5D6
    case 0x5 => 0x87E466D5
    case 0x6 => 0x94B49521
    case 0x7 => 0x66DF1622
    case 0x8 => 0x38CC2A06
    case 0x9 => 0xCAA7A905
    case 0xA => 0xD9F75AF1
    case 0xB => 0x2B9CD9F2
    case 0xC => 0xFF56BD19
    case 0xD => 0x0D3D3E1A
    case 0xE => 0x1E6DCDEA
    case _ => 0xEC064EE9
  }

  function RowC(j: bv8): bv32 {
    match j
    case 0x0 => 0xC38D26C4
    case 0x1 => 0x31E6A5C7
    case 0x2 => 0x22B65633
    case 0x3 => 0xD0DDD530
    case 0x4 => 0x0417B1DB
    case 0x5 => 0xF67C32D8
    case 0x6 => 0xE52CC12C
    case 0x7 => 0x1747422F
    case 0x8 => 0x49547E0B
    case 0x9 => 0xBB3FFD08
    case 0xA => 0xA86F0EFC
    case 0xB => 0x5A048DFF
    case 0xC => 0x8ECEE914
    case 0xD => 0x7CA56A17
    case 0xE => 0x6FF599E3
    case _ => 0x9D9E1AE0
  }

  function RowD(j: bv8): bv32 {
    match j
    case 0x0 => 0xD3D3E1AB
    case 0x1 => 0x21B862A8
    case 0x2 => 0x32E8915C
    case 0x3 => 0xC083125F
    case 0x4 => 0x144976B4
    case 0x5 => 0xE622F5B7
    case 0x6 => 0xF5720643
    case 0x7 => 0x07198540
    case 0x8 => 0x590AB964
    case 0x9 => 0xAB613A67
    case 0xA => 0xB831C993
    case 0xB => 0x4A5A4A90
    case 0xC => 0x9E902E7B
    case 0xD => 0x6CFBAD78
    case 0xE => 0x7FAB5E8C
    case _ => 0x8DC0DD8F
  }

  function RowE(j: bv8): bv32 {
    match j
    case 0x0 => 0xE330A81A
    case 0x1 => 0x115B2B19
    case 0x2 => 0x020BD8ED
    case 0x3 => 0xF0605BEE
    case 0x4 => 0x24AA3F05
    case 0x5 => 0xD6C1BC06
    case 0x6 => 0xC5914FF2
    case 0x7 => 0x37FACCF1
    case 0x8 => 0x69E9F0D5
    case 0x9 => 0x9B8273D6
    case 0xA => 0x88D28022
    case 0xB => 0x7AB90321
    case 0xC => 0xAE7367CA
    case 0xD => 0x5C18E4C9
    case 0xE => 0x4F48173D
    case _ => 0xBD23943E
  }

  function RowF(j: bv8): bv32 {
    match j
    case 0x0 => 0xF36E6F75
    case 0x1 => 0x0105EC76
    case 0x2 => 0x12551F82
    case 0x3 => 0xE03E9C81
    case 0x4 => 0x34F4F86A
    case 0x5 => 0xC69F7B69
    case 0x6 => 0xD5CF889D
    case 0x7 => 0x27A40B9E
    case 0x8 => 0x79B737BA
    case 0x9 => 0x8BDCB4B9
    case 0xA => 0x988C474D
    case 0xB => 0x6AE7C44E
    case 0xC => 0xBE2DA0A5
    case 0xD => 0x4C4623A6
    case 0xE => 0x5F16D052
    case _ => 0xAD7D5351
  }

  /** crc32c_table[i]. */
  function Shown(i: bv8): bv32 {
    var j := i & 0x0f;
    match i >> 4
    case 0x0 => Row0(j)
    case 0x1 => Row1(j)
    case 0x2 => Row2(j)
    case 0x3 => Row3(j)
    case 0x4 => Row4(j)
    case 0x5 => Row5(j)
    case 0x6 => Row6(j)
    case 0x7 => Row7(j)
    case 0x8 => Row8(j)
    case 0x9 => Row9(j)
    case 0xA => RowA(j)
    case 0xB => RowB(j)
    case 0xC => RowC(j)
    case 0xD => RowD(j)
    case 0xE => RowE(j)
    case _ => RowF(j)
  }

  function Pick(i: bv8, m: bv8, v: bv32): bv32 {
    if i & m != 0 then v else 0
  }

  /** Addition of words over GF(2). */
  function Sum(x: bv32, y: bv32): bv32 {
    x ^ y
  }

  function Sum8(a: bv32, b: bv32, c: bv32, d: bv32, e: bv32, f: bv32, g: bv32, h: bv32): bv32 {
    Sum(Sum(Sum(Sum(Sum(Sum(Sum(a, b), c), d), e), f), g), h)
  }

  /** The entry for byte i as the sum of the entries for its bits. */
  function Basis(i: bv8): bv32 {
    Sum8(Pick(i, 0x01, 0xF26B8303), Pick(i, 0x02, 0xE13B70F7), Pick(i, 0x04, 0xC79A971F), Pick(i, 0x08, 0x8AD958CF),
         Pick(i, 0x10, 0x105EC76F), Pick(i, 0x20, 0x20BD8EDE), Pick(i, 0x40, 0x417B1DBC), Pick(i, 0x80, 0x82F63B78))
  }

  predicate Misprint(i: bv8) {
    i == 190 || i == 191
  }

  function Delta(i: bv8): bv32 {
    if Misprint(i) then 0x0000_0004 else 0
  }

  lemma CheckRow0Low(i: bv8)
    requires i >> 3 == 0x00
    ensures Shown(i) == Sum(Basis(i), Delta(i))
  {
  }

  lemma CheckRow0High(i: bv8)
    requires i >> 3 == 0x01
    ensures Shown(i) == Sum(Basis(i), Delta(i))
  {
  }

  lemma CheckRow0(i: bv8)
    requires i >> 4 == 0x0
    ensures Shown(i) == Sum(Basis(i), Delta(i))
  {
    hide Shown, Sum, Basis, Delta;
    if i >> 3 == 0x00 {
      CheckRow0Low(i);
    } else {
      assert i >> 3 == 0x01;
      CheckRow0High(i);
    }
  }

  lemma CheckRow1(i: bv8)
    requires i >> 4 == 0x1
    ensures Shown(i) == Sum(Basis(i), Delta(i))
  {
  }

  lemma CheckRow2(i: bv8)
    requires i >> 4 == 0x2
    ensures Shown(i) == Sum(Basis(i), Delta(i))
  {
  }

  lemma CheckRow3(i: bv8)
    requires i >> 4 == 0x3
    ensures Shown(i) == Sum(Basis(i), Delta(i))
  {
  }

  lemma CheckRow4(i: bv8)
    requires i >> 4 == 0x4
    ensures Shown(i) == Sum(Basis(i), Delta(i))
  {
  }

  lemma CheckRow5(i: bv8)
    requires i >> 4 == 0x5
    ensures Shown(i) == Sum(Basis(i), Delta(i))
  {
  }

  lemma CheckRow6(i: bv8)
    requires i >> 4 == 0x6
    ensures Shown(i) == Sum(Basis(i), Delta(i))
  {
  }

  lemma CheckRow7(i: bv8)
    requires i >> 4 == 0x7
    ensures Shown(i) == Sum(Basis(i), Delta(i))
  {
  }

  lemma CheckRow8(i: bv8)
    requires i >> 4 == 0x8
    ensures Shown(i) == Sum(Basis(i), Delta(i))
  {
  }

  lemma CheckRow9(i: bv8)
    requires i >> 4 == 0x9
    ensures Shown(i) == Sum(Basis(i), Delta(i))
  {
  }

  lemma CheckRowA(i: bv8)
    requires i >> 4 == 0xA
    ensures Shown(i) == Sum(Basis(i), Delta(i))
  {
  }

  lemma CheckRowB(i: bv8)
    requires i >> 4 == 0xB
    ensures Shown(i) == Sum(Basis(i), Delta(i))
  {
  }

  lemma CheckRowC(i: bv8)
    requires i >> 4 == 0xC
    ensures Shown(i) == Sum(Basis(i), Delta(i))
  {
  }

  lemma CheckRowD(i: bv8)
    requires i >> 4 == 0xD
    ensures Shown(i) == Sum(Basis(i), Delta(i))
  {
  }

  lemma CheckRowE(i: bv8)
    requires i >> 4 == 0xE
    ensures Shown(i) == Sum(Basis(i), Delta(i))
  {
  }

  lemma CheckRowF(i: bv8)
    requires i >> 4 == 0xF
    ensures Shown(i) == Sum(Basis(i), Delta(i))
  {
  }

  /** The table as shown is the linear one, but for bit 2 of two entries. */
  lemma ShownIsBasis(i: bv8)
    ensures Shown(i) == Sum(Basis(i), Delta(i))
  {
    match i >> 4
    case 0x0 => CheckRow0(i);
    case 0x1 => CheckRow1(i);
    case 0x2 => CheckRow2(i);
    case 0x3 => CheckRow3(i);
    case 0x4 => CheckRow4(i);
    case 0x5 => CheckRow5(i);
    case 0x6 => CheckRow6(i);
    case 0x7 => CheckRow7(i);
    case 0x8 => CheckRow8(i);
    case 0x9 => CheckRow9(i);
    case 0xA => CheckRowA(i);
    case 0xB => CheckRowB(i);
    case 0xC => CheckRowC(i);
    case 0xD => CheckRowD(i);
    case 0xE => CheckRowE(i);
    case _ => CheckRowF(i);
  }
}
