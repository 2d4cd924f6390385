/**
 * The database helpers shared by every scraper: the check on PostgreSQL's binary `jsonb`
 * values, the one-dimensional array header used when binding an iterator as an array
 * parameter, the lazily filled connection slot and the checked column conversion. The pool,
 * the rows and the array element encoding itself are inputs.
 */
module Db {
  import opened Wrappers
  import opened Strings

  type Byte = x: int | 0 <= x < 256

  // ---------------------------------------------------------------- JsonChecked

  /** The version byte PostgreSQL puts in front of a binary `jsonb` value. */
  const JsonbVersion: Byte := 1

  /** `JsonChecked::from_sql`: the bytes after a leading version byte 1; anything else is rejected. */
  function DecodeJsonb(raw: seq<Byte>): (r: Result<seq<Byte>, string>)
    ensures r.Ok? <==> |raw| > 0 && raw[0] == JsonbVersion
    ensures r.Ok? ==> raw == [JsonbVersion] + r.value
    ensures r.Err? ==> r.error == "database JSONB error"
  {
    if |raw| > 0 && raw[0] == JsonbVersion then Ok(raw[1..]) else Err("database JSONB error")
  }

  /** How the server sends a `jsonb` document in binary: the version byte, then the text. */
  function EncodeJsonb(doc: seq<Byte>): (r: seq<Byte>)
    ensures |r| == |doc| + 1 && r[0] == JsonbVersion && r[1..] == doc
  {
    [JsonbVersion] + doc
  }

  /** Decoding what the server encodes gives back the document unchanged, and nothing else decodes. */
  lemma JsonbRoundTrip(doc: seq<Byte>, raw: seq<Byte>)
    ensures DecodeJsonb(EncodeJsonb(doc)) == Ok(doc)
    ensures DecodeJsonb(raw).Ok? ==> EncodeJsonb(DecodeJsonb(raw).value) == raw
  {
    assert EncodeJsonb(doc)[1..] == doc;
  }

  // ---------------------------------------------------------------- ToSqlIter

  /** The object ids of the two vector types that count their elements from 0. */
  const Int2VectorOid: int := 22
  const OidVectorOid: int := 30

  datatype Kind = ArrayOf(memberOid: int) | NotArray

  /** A PostgreSQL type as the binding sees it: its object id and its kind. */
  datatype PgType = PgType(oid: int, kind: Kind)

  datatype ArrayDimension = ArrayDimension(len: Int32, lowerBound: Int32)

  /** `int2vector` and `oidvector` start at index 0, every other array type at 1. */
  function LowerBound(ty: PgType): (r: Int32)
    ensures r == 0 <==> ty.oid == Int2VectorOid || ty.oid == OidVectorOid
    ensures r != 0 ==> r == 1
  {
    if ty.oid == OidVectorOid || ty.oid == Int2VectorOid then 0 else 1
  }

  /** The single dimension of the array: the iterator's length, which has to fit an i32. */
  function Dimension(ty: PgType, len: nat): (r: Result<ArrayDimension, string>)
    ensures r.Ok? <==> len <= I32_MAX
    ensures r.Ok? ==> r.value.len == len && r.value.lowerBound == LowerBound(ty)
  {
    if len <= I32_MAX then Ok(ArrayDimension(len, LowerBound(ty)))
    else Err("out of range integral type conversion attempted")
  }

  /** The outcome of `to_sql`: a panic on a non-array type, an error, or the value written. */
  datatype ToSqlOutcome = Panicked | Failed(message: string) | Written

  /** `bytes::BytesMut`, the output buffer of a parameter. */
  class BytesMut {
    var data: seq<Byte>

    constructor ()
      ensures data == []
    {
      data := [];
    }

    method Extend(bytes: seq<Byte>)
      modifies this
      ensures data == old(data) + bytes
    {
      data := data + bytes;
    }
  }

  /**
   * `ToSqlIter::to_sql` for `len` elements: `arrayToSql` stands for the element encoding of
   * `postgres_protocol::types::array_to_sql`, given the dimension and the member type's oid.
   * The model appends that encoding's bytes only when it succeeds and leaves the buffer as it
   * was when it fails; what a failing encoding may already have written is not modelled.
   */
  method ToSql(ty: PgType, len: nat, arrayToSql: (ArrayDimension, int) -> Result<seq<Byte>, string>, out: BytesMut)
    returns (r: ToSqlOutcome)
    modifies out
    ensures r == Panicked <==> ty.kind.NotArray?
    ensures len > I32_MAX && ty.kind.ArrayOf? ==> r.Failed? && out.data == old(out.data)
    ensures r == Written ==>
              && len <= I32_MAX && ty.kind.ArrayOf?
              && var dim := ArrayDimension(len, LowerBound(ty));
                 && arrayToSql(dim, ty.kind.memberOid).Ok?
                 && out.data == old(out.data) + arrayToSql(dim, ty.kind.memberOid).value
    ensures r != Written ==> out.data == old(out.data)
  {
    if ty.kind.NotArray? {
      return Panicked;
    }
    var dimension := Dimension(ty, len);
    if dimension.Err? {
      return Failed(dimension.error);
    }
    var encoded := arrayToSql(dimension.value, ty.kind.memberOid);
    if encoded.Err? {
      return Failed(encoded.error);
    }
    out.Extend(encoded.value);
    r := Written;
  }

  // ---------------------------------------------------------------- insert_connection

  /** A pooled connection, known by an identity. */
  datatype Connection = Connection(id: nat)

  /** The caller's `Option<PooledConnection>`, filled on first use. */
  class ConnectionSlot {
    var conn: Option<Connection>

    constructor ()
      ensures conn.None?
    {
      conn := None;
    }

    /**
     * `insert_connection`: the stored connection when there is one; otherwise `fromPool`, the
     * pool's answer, which is stored when it is a connection. A pool error is passed on and the
     * slot stays empty.
     */
    method InsertConnection(fromPool: Result<Connection, string>) returns (r: Result<Connection, string>)
      modifies this
      ensures old(conn).Some? ==> r == Ok(old(conn).value) && conn == old(conn)
      ensures old(conn).None? ==> r == fromPool
      ensures old(conn).None? && fromPool.Err? ==> conn.None?
      ensures r.Ok? ==> conn == Some(r.value)
    {
      if conn.Some? {
        return Ok(conn.value);
      }
      if fromPool.Err? {
        return Err(fromPool.error);
      }
      conn := Some(fromPool.value);
      r := Ok(fromPool.value);
    }
  }

  /** Once a call has produced a connection, every later call returns that same one, whatever the pool says. */
  method ReuseAfterInsert(slot: ConnectionSlot, first: Result<Connection, string>, later: Result<Connection, string>)
    returns (a: Result<Connection, string>, b: Result<Connection, string>)
    modifies slot
    ensures a.Ok? ==> b == a
  {
    a := slot.InsertConnection(first);
    b := slot.InsertConnection(later);
  }

  // ---------------------------------------------------------------- transfer_type

  datatype DbError = FromSql(column: nat, cause: string) | RowError(message: string)

  /**
   * `transfer_type`: `fetched` is the row's answer for column idx (its own error is passed on),
   * then `tryInto` converts it; a failed conversion becomes a FromSql error naming the column.
   */
  function TransferType<T, U>(fetched: Result<T, DbError>, idx: nat, tryInto: T -> Result<U, string>): (r: Result<U, DbError>)
    ensures fetched.Err? ==> r == Err(fetched.error)
    ensures fetched.Ok? ==> (r.Ok? <==> tryInto(fetched.value).Ok?)
    ensures r.Ok? ==> fetched.Ok? && r.value == tryInto(fetched.value).value
    ensures fetched.Ok? && r.Err? ==> r.error == FromSql(idx, tryInto(fetched.value).error)
  {
    if fetched.Err? then Err(fetched.error)
    else
      var c := tryInto(fetched.value);
      if c.Err? then Err(FromSql(idx, c.error)) else Ok(c.value)
  }

  /** `i64::try_into::<i32>` */
  function I64ToI32(x: int): (r: Result<int, string>)
    ensures r.Ok? <==> I32_MIN <= x <= I32_MAX
    ensures r.Ok? ==> r.value == x
  {
    if I32_MIN <= x <= I32_MAX then Ok(x) else Err("out of range integral type conversion attempted")
  }

  /** Reading a bigint column as i32 keeps in-range values and reports the column of any other. */
  lemma TransferNarrowing(x: int, idx: nat)
    ensures var r := TransferType(Ok(x), idx, I64ToI32);
            && (I32_MIN <= x <= I32_MAX ==> r == Ok(x))
            && (x < I32_MIN || x > I32_MAX ==> r.Err? && r.error.FromSql? && r.error.column == idx)
  {
  }
}
