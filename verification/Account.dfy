/** Account records and the account-update message (command 55, subtype 19). */
module Account {
  import opened Results
  import opened Bits

  const ACCOUNT_REC_SIZE: nat := 2996
  const UPDATE_PREFIX: nat := 216
  const STRIDE: nat := UPDATE_PREFIX + ACCOUNT_REC_SIZE

  /** Money fields keep their eight bytes; nothing here computes with them. */
  datatype AccountState = AccountState(
    login: nat, balance: seq<byte>, credit: seq<byte>, blocked: seq<byte>, leverage: i32, tradeFlags: i32)
  {
    /** Trade flag bit 3. */
    predicate IsReadOnly() {
      tradeFlags % 16 >= 8
    }
  }

  function ParseRecord(rec: seq<byte>): AccountState
    requires |rec| == ACCOUNT_REC_SIZE
  {
    AccountState(FromLE(rec[0..8]), rec[1836..1844], rec[1844..1852], rec[1928..1936],
                 FromLE32(rec[2020..2024]), FromLE32(rec[456..460]))
  }

  /** An account record piece by piece, in the order in which the pieces stand. */
  datatype Pieces = Pieces(
    login: seq<byte>, skipped1: seq<byte>, tradeFlags: seq<byte>, skipped2: seq<byte>, balance: seq<byte>,
    credit: seq<byte>, skipped3: seq<byte>, blocked: seq<byte>, skipped4: seq<byte>, leverage: seq<byte>,
    skipped5: seq<byte>)
  {
    predicate Sized() {
      && |login| == 8 && |skipped1| == 448 && |tradeFlags| == 4 && |skipped2| == 1376 && |balance| == 8
      && |credit| == 8 && |skipped3| == 76 && |blocked| == 8 && |skipped4| == 84 && |leverage| == 4
      && |skipped5| == 972
    }

    function Bytes(): seq<byte> {
      login + skipped1 + tradeFlags + skipped2 + balance + credit + skipped3 + blocked + skipped4 + leverage + skipped5
    }
  }

  /** Every field of a record is read from where it stands. */
  lemma RecordRead(p: Pieces)
    requires p.Sized()
    ensures |p.Bytes()| == ACCOUNT_REC_SIZE
    ensures ParseRecord(p.Bytes()) ==
            AccountState(FromLE(p.login), p.balance, p.credit, p.blocked, FromLE32(p.leverage), FromLE32(p.tradeFlags))
  {
    hide FromLE, FromLE32;
    var b := p.Bytes();
    assert b[0..8] == p.login && b[456..460] == p.tradeFlags && b[1836..1844] == p.balance;
    assert b[1844..1852] == p.credit && b[1928..1936] == p.blocked && b[2020..2024] == p.leverage;
  }

  /** The records at their strides, each after its prefix. */
  function Records(body: seq<byte>, count: nat): (rs: seq<AccountState>)
    requires |body| >= 5 + count * STRIDE
    ensures |rs| == count
    ensures forall i :: 0 <= i < count ==>
      rs[i] == ParseRecord(body[5 + i * STRIDE + UPDATE_PREFIX..5 + (i + 1) * STRIDE])
  {
    if count == 0 then [] else
    var at := 5 + (count - 1) * STRIDE;
    Records(body, count - 1) + [ParseRecord(body[at + UPDATE_PREFIX..at + STRIDE])]
  }

  function AccountUpdates(body: seq<byte>): Result<seq<AccountState>> {
    if |body| < 5 || body[0] != 19 then Err else
    var count := FromLE32(body[1..5]);
    if count < 0 || |body| < 5 + count * STRIDE then Err else Ok(Records(body, count))
  }

  method ParseAccountUpdate19(body: seq<byte>) returns (r: Result<seq<AccountState>>)
    ensures r == AccountUpdates(body)
    ensures r.Ok? <==>
      |body| >= 5 && body[0] == 19 && FromLE32(body[1..5]) >= 0 && |body| >= 5 + FromLE32(body[1..5]) * STRIDE
    ensures r.Ok? ==> |r.value| == FromLE32(body[1..5])
    ensures r.Ok? ==> forall i :: 0 <= i < |r.value| ==>
      r.value[i] == ParseRecord(body[5 + i * STRIDE + UPDATE_PREFIX..5 + (i + 1) * STRIDE])
  {
    hide ParseRecord, FromLE32, FromLE;
    if |body| < 5 {
      return Err;
    }
    if body[0] != 19 {
      return Err;
    }
    var count := FromLE32(body[1..5]);
    if count < 0 {
      return Err;
    }
    if |body| < 5 + count * STRIDE {
      return Err;
    }
    var out := [];
    var off := 5;
    for i := 0 to count
      invariant off == 5 + i * STRIDE
      invariant out == Records(body, i)
    {
      out := out + [ParseRecord(body[off + UPDATE_PREFIX..off + STRIDE])];
      off := off + STRIDE;
    }
    return Ok(out);
  }
}
