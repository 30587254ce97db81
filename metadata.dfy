/**
 * The result metadata `do` builds after `fetchall`: one column descriptor per
 * entry of `cursor.description`, each flagged as a date column by its type
 * code, and the number of fetched rows.
 */
module Metadata {

  /** PostgreSQL's OID for `timestamp` (without time zone). */
  const TimestampOid := 1114

  /** `isDate(type)`: `type in (1114,)`. */
  function IsDate(typeCode: int): (b: bool)
    ensures b <==> typeCode == TimestampOid
  {
    typeCode in [TimestampOid]
  }

  /** The two leading fields of a DB-API column description: `desc[0]`, `desc[1]`. */
  datatype ColumnDescription = ColumnDescription(name: string, typeCode: int)

  /** `{'name': ..., 'typeCode': ..., 'isDate': ...}` */
  datatype Column = Column(name: string, typeCode: int, isDate: bool)

  /** `{'count': ..., 'columns': ...}` */
  datatype ResultMetadata = ResultMetadata(count: nat, columns: seq<Column>)

  function Describe(desc: ColumnDescription): (c: Column)
    ensures c.name == desc.name && c.typeCode == desc.typeCode
    ensures c.isDate <==> desc.typeCode == TimestampOid
  {
    Column(desc.name, desc.typeCode, IsDate(desc.typeCode))
  }

  /** The `coluns` loop and `metadata` dictionary of `do`. */
  method BuildMetadata<Row>(description: seq<ColumnDescription>, data: seq<Row>) returns (m: ResultMetadata)
    ensures m.count == |data|
    ensures |m.columns| == |description|
    ensures forall i :: 0 <= i < |description| ==>
      && m.columns[i].name == description[i].name
      && m.columns[i].typeCode == description[i].typeCode
      && (m.columns[i].isDate <==> description[i].typeCode == TimestampOid)
  {
    var columns: seq<Column> := [];
    for i := 0 to |description|
      invariant |columns| == i
      invariant forall j :: 0 <= j < i ==> columns[j] == Describe(description[j])
    {
      columns := columns + [Describe(description[i])];
    }
    m := ResultMetadata(|data|, columns);
  }
}
