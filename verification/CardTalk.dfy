/** Whole transactions with the memory card, with the receive FIFO read after every byte: what the
    card answers, and that a sector read back is the sector written. */
module CardTalk {
  import opened Words
  import opened MemCard
  import opened SerialPort

  ghost predicate Drained(s: Sio) {
    SioOk(s) && s.port.rx == []
  }

  /** Send a byte and read the answer. */
  ghost function Exchange(s: Sio, mem: Memory, b: Byte): (r: (Byte, Sio))
    requires Drained(s)
    ensures Drained(r.1) && r.0 == Answer(s, mem, b).answer && r.1.proto == Answer(s, mem, b).proto
    ensures r.1.card == Stored(s) && r.1.flag == (if s.proto.phase == WriteEnd then 0x00 else s.flag)
  {
    var t := ProcessByte(s, mem, b);
    var (a, p) := PopRx(t.port);
    (a, t.(port := p))
  }

  /** Send some bytes, reading the answer to each. */
  ghost function Talk(s: Sio, mem: Memory, bytes: Bytes): (r: (Bytes, Sio))
    requires Drained(s)
    ensures Drained(r.1) && |r.0| == |bytes|
    decreases |bytes|
  {
    if bytes == [] then ([], s)
    else
      var (answers, t) := Talk(s, mem, bytes[..|bytes| - 1]);
      var (a, u) := Exchange(t, mem, bytes[|bytes| - 1]);
      (answers + [a], u)
  }

  lemma NothingSaid(s: Sio, mem: Memory, x: Bytes)
    requires Drained(s)
    ensures Talk(s, mem, x[..0]) == ([], s)
  {
    assert x[..0] == [];
  }

  /** The conversation so far, and one more byte of x. */
  lemma TalkNext(s: Sio, mem: Memory, x: Bytes, k: nat, answers: Bytes, t: Sio)
    returns (answers': Bytes, r: Reply, u: Sio)
    requires Drained(s) && k < |x| && Talk(s, mem, x[..k]) == (answers, t)
    ensures Drained(t) && Talk(s, mem, x[..k + 1]) == (answers', u) && Drained(u)
    ensures r == Answer(t, mem, x[k]) && answers' == answers + [r.answer] && u.proto == r.proto
    ensures u.card == Stored(t) && u.flag == (if t.proto.phase == WriteEnd then 0x00 else t.flag)
  {
    assert x[..k + 1][..k] == x[..k];
    r := Answer(t, mem, x[k]);
    answers', u := answers + [r.answer], Exchange(t, mem, x[k]).1;
  }

  // ---- reading ----

  /** The bytes a host sends to read a sector; those it sends while the card answers do not matter. */
  ghost predicate ReadRequest(x: Bytes, sector: Half) {
    |x| == 139 && x[0] == 0x81 && x[1] == 0x52 && x[4] == sector / 0x100 && x[5] == sector % 0x100
  }

  /** The card's answer to the k-th byte: identification, acknowledge, the address, the sector, its
      checksum, and 'G' for good. */
  function ReadAnswer(card: Bytes, flag: Byte, sector: Half, k: nat): Byte
    requires |card| == CARD_SIZE && sector < TOTAL_SECTORS && k < 139
  {
    if k < 9 then [0xFF, flag, 0x5A, 0x5D, 0x00, 0x5C, 0x5D, sector / 0x100, sector % 0x100][k]
    else if k < 137 then Sector(card, sector)[k - 9]
    else if k == 137 then Checksum(sector, Sector(card, sector))
    else 0x47
  }

  /** Where the transaction is when k bytes have been sent. */
  ghost predicate ReadAt(p: Proto, sector: Half, k: nat) {
    && |p.tmp| == SECTOR_SIZE && k <= 139
    && p.phase == (if k == 0 then Idle else if k == 1 then WaitCmd else if k == 2 then ReadId1
                   else if k == 3 then ReadId2
                   else if k == 4 then ReadMsb else if k == 5 then ReadLsb else if k == 6 then ReadAck2
                   else if k == 7 then ReadConfirmMsb else if k == 8 then ReadConfirmLsb else if k < 137 then ReadData
                   else if k == 137 then ReadChecksum else if k == 138 then ReadEnd else Idle)
    && (k >= 5 ==> p.msb == sector / 0x100)
    && (k >= 6 ==> p.lsb == sector % 0x100 && p.sector == sector)
    && (9 <= k < 137 ==> p.index == k - 9)
  }

  lemma SectorSplits(sector: Half)
    ensures SectorOf(sector / 0x100, sector % 0x100) == sector
  {
  }

  lemma SectorOnCard(card: Bytes, mem: Memory, n: Half)
    requires |card| == CARD_SIZE && n < TOTAL_SECTORS
    ensures SectorAt(card, mem, n) == Sector(card, n)
  {
    var at, s := SectorAt(card, mem, n), Sector(card, n);
    forall k | 0 <= k < SECTOR_SIZE ensures at[k] == s[k] {
      assert n * SECTOR_SIZE + k < CARD_SIZE;
      assert at[k] == CardByte(card, mem, n * SECTOR_SIZE + k);
    }
  }

  lemma ReadOpens(flag: Byte, buttons: Half, p: Proto, b: Byte, sector: Half, k: nat)
    requires ReadAt(p, sector, k) && k < 2 && b == (if k == 0 then 0x81 else 0x52)
    ensures var r := OtherReply(flag, buttons, p, b);
            r.answer == (if k == 0 then 0xFF else flag) && ReadAt(r.proto, sector, k + 1)
  {
  }

  lemma ReadGoesOn(card: Bytes, mem: Memory, flag: Byte, p: Proto, b: Byte, sector: Half, k: nat)
    requires |card| == CARD_SIZE && sector < TOTAL_SECTORS && ReadAt(p, sector, k) && 2 <= k < 139
    requires (k == 4 ==> b == sector / 0x100) && (k == 5 ==> b == sector % 0x100)
    ensures var r := ReadReply(card, mem, p, b);
            r.answer == ReadAnswer(card, flag, sector, k) && ReadAt(r.proto, sector, k + 1)
  {
    SectorSplits(sector);
    SectorOnCard(card, mem, sector);
    if 9 <= k < 137 {
      assert sector * SECTOR_SIZE + (k - 9) < CARD_SIZE;
    }
  }

  lemma ReadStep(s: Sio, mem: Memory, b: Byte, sector: Half, k: nat, r: Reply)
    requires SioOk(s) && sector < TOTAL_SECTORS && ReadAt(s.proto, sector, k) && k < 139 && r == Answer(s, mem, b)
    requires (k == 0 ==> b == 0x81) && (k == 1 ==> b == 0x52) && (k == 4 ==> b == sector / 0x100)
      && (k == 5 ==> b == sector % 0x100)
    ensures r.answer == ReadAnswer(s.card, s.flag, sector, k) && ReadAt(r.proto, sector, k + 1)
    ensures Stored(s) == s.card && s.proto.phase != WriteEnd
  {
    if k < 2 {
      ReadOpens(s.flag, s.buttons, s.proto, b, sector, k);
    } else {
      ReadGoesOn(s.card, mem, s.flag, s.proto, b, sector, k);
    }
  }

  ghost predicate SectorAnswers(card: Bytes, flag: Byte, sector: Half, answers: Bytes)
    requires |card| == CARD_SIZE && sector < TOTAL_SECTORS
  {
    |answers| <= 139 && forall i :: 0 <= i < |answers| ==> answers[i] == ReadAnswer(card, flag, sector, i)
  }

  lemma NoAnswers(card: Bytes, flag: Byte, sector: Half)
    requires |card| == CARD_SIZE && sector < TOTAL_SECTORS
    ensures SectorAnswers(card, flag, sector, [])
  {
  }

  lemma OneMoreAnswer(card: Bytes, flag: Byte, sector: Half, answers: Bytes, a: Byte)
    requires |card| == CARD_SIZE && sector < TOTAL_SECTORS && SectorAnswers(card, flag, sector, answers)
    requires |answers| < 139 && a == ReadAnswer(card, flag, sector, |answers|)
    ensures SectorAnswers(card, flag, sector, answers + [a])
  {
  }

  lemma {:induction false} ReadUpTo(s: Sio, mem: Memory, x: Bytes, sector: Half, k: nat)
    returns (answers: Bytes, t: Sio)
    requires Drained(s) && s.proto.phase == Idle && ReadRequest(x, sector) && sector < TOTAL_SECTORS && k <= 139
    ensures Talk(s, mem, x[..k]) == (answers, t) && Drained(t) && |answers| == k
    ensures SectorAnswers(s.card, s.flag, sector, answers)
    ensures ReadAt(t.proto, sector, k) && t.card == s.card && t.flag == s.flag
    decreases k
  {
    hide SectorAnswers, Talk;
    if k == 0 {
      NothingSaid(s, mem, x);
      NoAnswers(s.card, s.flag, sector);
      answers, t := [], s;
    } else {
      var j := k - 1;
      var before, u := ReadUpTo(s, mem, x, sector, j);
      var r;
      answers, r, t := TalkNext(s, mem, x, j, before, u);
      ReadStep(u, mem, x[j], sector, j, r);
      OneMoreAnswer(s.card, s.flag, sector, before, r.answer);
    }
  }

  /** Reading a sector: the card answers with the sector's bytes, their checksum, and 'G', and is idle
      again with nothing changed. */
  lemma ReadAnswers(s: Sio, mem: Memory, x: Bytes, sector: Half) returns (answers: Bytes, t: Sio)
    requires Drained(s) && s.proto.phase == Idle && ReadRequest(x, sector) && sector < TOTAL_SECTORS
    ensures Talk(s, mem, x) == (answers, t)
    ensures |answers| == 139 && answers[9..137] == Sector(s.card, sector)
    ensures answers[137] == Checksum(sector, Sector(s.card, sector)) && answers[138] == 0x47
    ensures t.card == s.card && t.flag == s.flag && t.proto.phase == Idle
  {
    hide SectorAnswers, Talk, Sector, Checksum;
    answers, t := ReadUpTo(s, mem, x, sector, 139);
    assert x[..139] == x;
    DataOfAnswers(s.card, s.flag, sector, answers);
  }

  lemma DataOfAnswers(card: Bytes, flag: Byte, sector: Half, answers: Bytes)
    requires |card| == CARD_SIZE && sector < TOTAL_SECTORS && SectorAnswers(card, flag, sector, answers)
      && |answers| == 139
    ensures answers[9..137] == Sector(card, sector)
    ensures answers[137] == Checksum(sector, Sector(card, sector)) && answers[138] == 0x47
  {
    var data := Sector(card, sector);
    forall i | 0 <= i < 128 ensures answers[9..137][i] == data[i] {
      assert answers[9 + i] == ReadAnswer(card, flag, sector, 9 + i);
    }
  }

  // ---- writing ----

  /** The bytes a host sends to write a sector. */
  ghost predicate WriteRequest(x: Bytes, sector: Half, data: Bytes) {
    |data| == SECTOR_SIZE && |x| == 137 && x[0] == 0x81 && x[1] == 0x57 && x[4] == sector / 0x100
        && x[5] == sector % 0x100 && x[6..134] == data
  }

  ghost predicate WriteAt(p: Proto, sector: Half, x: Bytes, k: nat)
    requires |x| == 137
  {
    && |p.tmp| == SECTOR_SIZE && k <= 137
    && p.phase == (if k == 0 then Idle else if k == 1 then WaitCmd else if k == 2 then WriteId1
                   else if k == 3 then WriteId2
                   else if k == 4 then WriteMsb else if k == 5 then WriteLsb else if k < 134 then WriteData
                   else if k == 134 then WriteChecksum else if k == 135 then WriteAck2 else if k == 136 then WriteEnd
                   else Idle)
    && (k >= 5 ==> p.msb == sector / 0x100)
    && (k >= 6 ==> p.sector == sector)
    && (6 <= k < 134 ==> p.index == k - 6 && p.tmp[..k - 6] == x[6..k])
    && (134 <= k ==> p.tmp == x[6..134])
    && (135 <= k ==> (p.good <==> x[134] == Checksum(sector, x[6..134])))
  }

  lemma WriteOpens(flag: Byte, buttons: Half, p: Proto, x: Bytes, sector: Half, data: Bytes, k: nat)
    requires WriteRequest(x, sector, data) && WriteAt(p, sector, x, k) && k < 2
    ensures WriteAt(OtherReply(flag, buttons, p, x[k]).proto, sector, x, k + 1)
  {
  }

  lemma WriteDataByte(p: Proto, x: Bytes, sector: Half, data: Bytes, k: nat)
    requires WriteRequest(x, sector, data) && WriteAt(p, sector, x, k) && 6 <= k < 134
    ensures WriteAt(WriteReply(p, x[k]).proto, sector, x, k + 1)
  {
    var tmp := p.tmp[k - 6 := x[k]];
    assert tmp[..k - 5] == p.tmp[..k - 6] + [x[k]];
    assert x[6..k + 1] == x[6..k] + [x[k]];
    if k == 133 {
      assert tmp[..128] == tmp;
    }
  }

  lemma WriteGoesOn(p: Proto, x: Bytes, sector: Half, data: Bytes, k: nat)
    requires WriteRequest(x, sector, data) && WriteAt(p, sector, x, k) && 2 <= k < 137
    ensures WriteAt(WriteReply(p, x[k]).proto, sector, x, k + 1)
    ensures k == 136 ==> WriteReply(p, x[k]).answer == if x[134] == Checksum(sector, data) then 0x47 else 0x4E
  {
    SectorSplits(sector);
    if 6 <= k < 134 {
      WriteDataByte(p, x, sector, data, k);
    }
  }

  /** The last answer and the card after a write: 'G' and the data stored if the checksum sent is right,
      'N' and nothing stored if not; an address past the card is answered but not stored. */
  ghost predicate Outcome(card: Bytes, card': Bytes, answer: Byte, chk: Byte, sector: Half, data: Bytes)
    requires |card| == CARD_SIZE && |data| == SECTOR_SIZE
  {
    && answer == (if chk == Checksum(sector, data) then 0x47 else 0x4E)
    && card' == if chk == Checksum(sector, data)
       && sector < TOTAL_SECTORS then Put(card, sector * SECTOR_SIZE, data) else card
  }

  lemma WriteStep(s: Sio, mem: Memory, x: Bytes, sector: Half, data: Bytes, k: nat, r: Reply)
    requires SioOk(s) && WriteRequest(x, sector, data) && WriteAt(s.proto, sector, x, k) && k < 137
      && r == Answer(s, mem, x[k])
    ensures WriteAt(r.proto, sector, x, k + 1)
    ensures k < 136 ==> Stored(s) == s.card
    ensures k == 136 ==> Outcome(s.card, Stored(s), r.answer, x[134], sector, data)
  {
    if k < 2 {
      WriteOpens(s.flag, s.buttons, s.proto, x, sector, data, k);
    } else {
      WriteGoesOn(s.proto, x, sector, data, k);
    }
  }

  /** One byte of a write, and what it leaves. */
  lemma WriteMoves(u: Sio, mem: Memory, x: Bytes, sector: Half, data: Bytes, k: nat, r: Reply, t: Sio)
    requires SioOk(u) && WriteRequest(x, sector, data) && WriteAt(u.proto, sector, x, k) && k < 137
      && r == Answer(u, mem, x[k])
    requires t.proto == r.proto && t.card == Stored(u)
    ensures WriteAt(t.proto, sector, x, k + 1)
    ensures k < 136 ==> t.card == u.card
    ensures k == 136 ==> Outcome(u.card, t.card, r.answer, x[134], sector, data)
  {
    WriteStep(u, mem, x, sector, data, k, r);
  }

  lemma {:induction false} WriteUpTo(s: Sio, mem: Memory, x: Bytes, sector: Half, data: Bytes, k: nat)
    returns (answers: Bytes, t: Sio)
    requires Drained(s) && s.proto.phase == Idle && WriteRequest(x, sector, data) && k <= 136
    ensures Talk(s, mem, x[..k]) == (answers, t) && Drained(t) && |answers| == k && WriteAt(t.proto, sector, x, k)
    ensures t.card == s.card
    decreases k
  {
    if k == 0 {
      NothingSaid(s, mem, x);
      answers, t := [], s;
    } else {
      var j := k - 1;
      var before, u := WriteUpTo(s, mem, x, sector, data, j);
      var r;
      answers, r, t := TalkNext(s, mem, x, j, before, u);
      WriteMoves(u, mem, x, sector, data, j, r, t);
    }
  }

  /** The last byte of a write. */
  lemma WriteLast(s: Sio, mem: Memory, x: Bytes, sector: Half, data: Bytes, k: nat, before: Bytes, u: Sio)
    returns (answers: Bytes, t: Sio)
    requires Drained(s) && WriteRequest(x, sector, data) && |x| == k + 1 && k == 136
    requires Talk(s, mem, x[..k]) == (before, u) && Drained(u) && |before| == k && WriteAt(u.proto, sector, x, k)
    ensures Talk(s, mem, x) == (answers, t) && Drained(t) && t.proto.phase == Idle
    ensures |answers| == k + 1 && Outcome(u.card, t.card, answers[k], x[134], sector, data)
  {
    var r;
    answers, r, t := TalkNext(s, mem, x, k, before, u);
    assert x[..k + 1] == x;
    WriteMoves(u, mem, x, sector, data, k, r, t);
  }

  /** Writing a sector: with the right checksum the card says 'G' and holds the data in that sector, if
      the card has it; with a wrong one it says 'N' and is unchanged. */
  lemma WriteAnswers(s: Sio, mem: Memory, x: Bytes, sector: Half, data: Bytes) returns (answers: Bytes, t: Sio)
    requires Drained(s) && s.proto.phase == Idle && WriteRequest(x, sector, data)
    ensures Talk(s, mem, x) == (answers, t) && Drained(t) && t.proto.phase == Idle
    ensures |answers| == 137 && Outcome(s.card, t.card, answers[136], x[134], sector, data)
  {
    var before, u := WriteUpTo(s, mem, x, sector, data, 136);
    answers, t := WriteLast(s, mem, x, sector, data, 136, before, u);
  }

  /** What was written is what a later read of the sector answers. */
  lemma WriteThenRead(s: Sio, mem: Memory, w: Bytes, r: Bytes, sector: Half, data: Bytes)
    returns (first: Bytes, t: Sio, answers: Bytes, u: Sio)
    requires Drained(s) && s.proto.phase == Idle && sector < TOTAL_SECTORS
    requires WriteRequest(w, sector, data) && w[134] == Checksum(sector, data) && ReadRequest(r, sector)
    ensures Talk(s, mem, w) == (first, t) && Drained(t) && Talk(t, mem, r) == (answers, u)
    ensures |answers| == 139 && answers[9..137] == data && answers[137] == Checksum(sector, data)
      && answers[138] == 0x47
  {
    first, t := WriteAnswers(s, mem, w, sector, data);
    PutSector(s.card, sector, data, sector);
    answers, u := ReadAnswers(t, mem, r, sector);
  }
}
