/**
 * The session's initialization query: `SELECT <columns> FROM <table> <limit clause>`.
 * Identifier quoting is the database driver's and is taken as a parameter `quote`.
 */
module QueryBuilder {
  import opened Wrappers
  import opened EditContracts

  /** `_construct_initialize_query` reads `limit_clause` even when it never assigned it. */
  datatype QueryError = UnboundLimitClause

  function Digit(d: nat): (c: char)
    requires d < 10
    ensures '0' <= c <= '9'
  {
    ('0' as int + d) as char
  }

  function DigitValue(c: char): nat
  {
    if '0' <= c <= '9' then c as int - '0' as int else 0
  }

  /** Python's `str(n)` for a non-negative integer: its decimal digits without leading zeros. */
  function DecimalString(n: nat): (s: string)
    ensures |s| > 0
    ensures forall i :: 0 <= i < |s| ==> '0' <= s[i] <= '9'
    ensures n > 0 ==> s[0] != '0'
    ensures n == 0 ==> s == "0"
  {
    if n < 10 then [Digit(n)] else DecimalString(n / 10) + [Digit(n % 10)]
  }

  /** The value of a string of decimal digits. */
  function ParseDecimal(s: string): nat
  {
    if |s| == 0 then 0 else ParseDecimal(s[..|s| - 1]) * 10 + DigitValue(s[|s| - 1])
  }

  /** Reading back the digits of `str(n)` gives `n`. */
  lemma {:induction false} DecimalRoundTrip(n: nat)
    ensures ParseDecimal(DecimalString(n)) == n
  {
    var s := DecimalString(n);
    if n >= 10 {
      var prefix := DecimalString(n / 10);
      assert s[..|s| - 1] == prefix;
      DecimalRoundTrip(n / 10);
    }
  }

  /** Distinct limits are rendered as distinct digit strings. */
  lemma DecimalStringInjective(a: nat, b: nat)
    requires DecimalString(a) == DecimalString(b)
    ensures a == b
  {
    DecimalRoundTrip(a);
    DecimalRoundTrip(b);
  }

  /** `sep.join(parts)`. */
  function Join(parts: seq<string>, sep: string): string
  {
    if |parts| == 0 then "" else if |parts| == 1 then parts[0] else parts[0] + sep + Join(parts[1..], sep)
  }

  /** One quoted identifier per metadata column, in metadata order. */
  function QuotedColumns(quote: string -> string, metadata: EditTableMetadata): (r: seq<string>)
    ensures |r| == |metadata.columnMetadata|
    ensures forall i :: 0 <= i < |r| ==> r[i] == quote(metadata.columnMetadata[i].escapedName)
  {
    seq(|metadata.columnMetadata|, i requires 0 <= i < |metadata.columnMetadata| =>
      quote(metadata.columnMetadata[i].escapedName))
  }

  /** `' '.join([' LIMIT', str(n)])`, assigned only for a positive limit. */
  function LimitClause(filters: EditInitializerFilter): (r: Option<string>)
    ensures r.Some? <==> filters.limitResults.Some? && filters.limitResults.value > 0
    ensures r.Some? ==> r.value == " LIMIT " + DecimalString(filters.limitResults.value)
  {
    match filters.limitResults
    case Some(n) => if n > 0 then Some(" LIMIT" + " " + DecimalString(n)) else None
    case None => None
  }

  /** The text before the limit digits of a query with a positive limit. */
  function LimitedQueryPrefix(quote: string -> string, metadata: EditTableMetadata): string
  {
    "SELECT " + Join(QuotedColumns(quote, metadata), ", ") + " FROM " + quote(metadata.escapedMultipartName) + "  LIMIT "
  }

  /**
   * `_construct_initialize_query`: the query text when the filter has a positive limit,
   * and otherwise the error Python raises on reading the unassigned `limit_clause`.
   */
  function ConstructInitializeQuery(quote: string -> string, metadata: EditTableMetadata, filters: EditInitializerFilter)
    : (r: Result<string, QueryError>)
    ensures r.Ok? <==> filters.limitResults.Some? && filters.limitResults.value > 0
    ensures r.Err? ==> r.error == UnboundLimitClause
    ensures r.Ok? ==> r.value == LimitedQueryPrefix(quote, metadata) + DecimalString(filters.limitResults.value)
  {
    var columnNames := QuotedColumns(quote, metadata);
    match LimitClause(filters)
    case None => Err(UnboundLimitClause)
    case Some(limitClause) =>
      Ok("SELECT " + Join(columnNames, ", ") + " FROM " + quote(metadata.escapedMultipartName) + " " + limitClause)
  }

  /** The limit can be read back from the end of the query text. */
  lemma LimitRecoverable(quote: string -> string, metadata: EditTableMetadata, filters: EditInitializerFilter)
    requires filters.limitResults.Some? && filters.limitResults.value > 0
    ensures var q := ConstructInitializeQuery(quote, metadata, filters).value;
            var prefix := LimitedQueryPrefix(quote, metadata);
            |prefix| < |q| && q[..|prefix|] == prefix && ParseDecimal(q[|prefix|..]) == filters.limitResults.value
  {
    var q := ConstructInitializeQuery(quote, metadata, filters).value;
    var prefix := LimitedQueryPrefix(quote, metadata);
    assert q[|prefix|..] == DecimalString(filters.limitResults.value);
    DecimalRoundTrip(filters.limitResults.value);
  }

  /** For the same table, two limits give the same query text only if they are equal. */
  lemma QueryDeterminesLimit(quote: string -> string, metadata: EditTableMetadata, a: EditInitializerFilter, b: EditInitializerFilter)
    requires ConstructInitializeQuery(quote, metadata, a).Ok? && ConstructInitializeQuery(quote, metadata, b).Ok?
    requires ConstructInitializeQuery(quote, metadata, a) == ConstructInitializeQuery(quote, metadata, b)
    ensures a == b
  {
    var prefix := LimitedQueryPrefix(quote, metadata);
    var q := ConstructInitializeQuery(quote, metadata, a).value;
    var da, db := DecimalString(a.limitResults.value), DecimalString(b.limitResults.value);
    assert da == q[|prefix|..];
    assert db == q[|prefix|..];
    DecimalStringInjective(a.limitResults.value, b.limitResults.value);
  }

  /** Cancelling a common prefix and suffix. */
  lemma CancelAround(head: string, x: string, y: string, tail: string)
    requires head + x + tail == head + y + tail
    ensures x == y
  {
    var q := head + x + tail;
    assert |x| == |y|;
    assert x == q[|head|..|head| + |x|];
    assert y == (head + y + tail)[|head|..|head| + |y|];
  }

  /** The table part of a limited query: everything but the quoted table name is the same. */
  lemma LimitedQueryAroundTable(quote: string -> string, columns: seq<EditColumnMetadata>, t: string, n: nat)
    requires n > 0
    ensures ConstructInitializeQuery(quote, EditTableMetadata(t, columns), EditInitializerFilter(Some(n))).value
         == ("SELECT " + Join(QuotedColumns(quote, EditTableMetadata("", columns)), ", ") + " FROM ")
            + quote(t) + ("  LIMIT " + DecimalString(n))
  {
    var head := "SELECT " + Join(QuotedColumns(quote, EditTableMetadata("", columns)), ", ") + " FROM ";
    assert QuotedColumns(quote, EditTableMetadata(t, columns)) == QuotedColumns(quote, EditTableMetadata("", columns));
    assert head + quote(t) + "  LIMIT " + DecimalString(n) == head + quote(t) + ("  LIMIT " + DecimalString(n));
  }

  /**
   * With an injective quoting function, the same columns and limit give the same query
   * text only for the same table name: the name is quoted as one identifier.
   */
  lemma QueryDeterminesTable(quote: string -> string, columns: seq<EditColumnMetadata>, t1: string, t2: string,
                             filters: EditInitializerFilter)
    requires forall x, y :: quote(x) == quote(y) ==> x == y
    requires filters.limitResults.Some? && filters.limitResults.value > 0
    requires ConstructInitializeQuery(quote, EditTableMetadata(t1, columns), filters)
          == ConstructInitializeQuery(quote, EditTableMetadata(t2, columns), filters)
    ensures t1 == t2
  {
    var n := filters.limitResults.value;
    assert filters == EditInitializerFilter(Some(n));
    LimitedQueryAroundTable(quote, columns, t1, n);
    LimitedQueryAroundTable(quote, columns, t2, n);
    var head := "SELECT " + Join(QuotedColumns(quote, EditTableMetadata("", columns)), ", ") + " FROM ";
    CancelAround(head, quote(t1), quote(t2), "  LIMIT " + DecimalString(n));
  }

  /** A filter of 10 rows ends the query with two spaces, LIMIT and 10. */
  lemma LimitTenQuery(quote: string -> string)
    ensures ConstructInitializeQuery(quote,
              EditTableMetadata("t", [EditColumnMetadata("id"), EditColumnMetadata("name")]),
              EditInitializerFilter(Some(10)))
         == Ok("SELECT " + quote("id") + ", " + quote("name") + " FROM " + quote("t") + "  LIMIT 10")
  {
    assert DecimalString(10) == "10";
    var md := EditTableMetadata("t", [EditColumnMetadata("id"), EditColumnMetadata("name")]);
    var cols := [quote("id"), quote("name")];
    assert QuotedColumns(quote, md) == cols;
    assert cols[1..] == [quote("name")];
    assert Join(cols, ", ") == quote("id") + ", " + quote("name");
    var x := "SELECT " + quote("id") + ", " + quote("name") + " FROM " + quote("t");
    var r := ConstructInitializeQuery(quote, md, EditInitializerFilter(Some(10)));
    assert r.Ok?;
    assert r.value == LimitedQueryPrefix(quote, md) + DecimalString(10);
    assert LimitedQueryPrefix(quote, md) == x + "  LIMIT ";
    assert r.value == x + "  LIMIT " + "10";
    assert x + "  LIMIT " + "10" == x + "  LIMIT 10";
  }
}
