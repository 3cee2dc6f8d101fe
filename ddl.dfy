/**
 The data-definition text the rotulus database tool sends: tables and
 columns as values, the create and drop statements built from them, and
 the foreign-key clause read back from a column's properties text.
 */
module Ddl {

  datatype Option<T> = None | Some(value: T)

  /**
   One column: its name, its type and constraint clause, and the table its
   trailing `references rotulus.<table>(id)` clause names, if it has one.
   Properties(c) is the clause text exactly as it appears in the statement.
   */
  datatype Column = Column(name: string, definition: string, references: Option<string>)

  /** One table: its name and its columns, in declared order. */
  datatype Table = Table(name: string, columns: seq<Column>)

  const CreateSchemaStatement: string := "create schema rotulus;"
  const DropSchemaStatement: string := "drop schema rotulus;"
  const CreateTablePrefix: string := "create unlogged table rotulus."

  // ---------------------------------------------------------------------
  // Statement text
  // ---------------------------------------------------------------------

  /** The text one column contributes to a create statement. */
  function ColumnClause(c: Column): string {
    c.name + " " + Properties(c)
  }

  /** The properties text of a column: its clause, then its foreign-key clause if any. */
  function Properties(c: Column): string {
    match c.references
    case None => c.definition
    case Some(t) => c.definition + " " + ReferencePrefix + t + "(id)"
  }

  /** The text of each column, in declared order. */
  function ColumnClauses(cols: seq<Column>): seq<string> {
    seq(|cols|, i requires 0 <= i < |cols| => ColumnClause(cols[i]))
  }

  /**
   Parts separated by ", ", with no separator after the last one. Defined
   from the right end, the way a statement is accumulated part by part.
   */
  function Join(parts: seq<string>): string {
    if |parts| == 0 then ""
    else if |parts| == 1 then parts[0]
    else Join(parts[..|parts| - 1]) + ", " + parts[|parts| - 1]
  }

  /** The column part of a create statement. */
  function ColumnList(cols: seq<Column>): string {
    Join(ColumnClauses(cols))
  }

  /** The statement that creates one table. */
  function CreateStatement(t: Table): string {
    CreateTablePrefix + t.name + "( " + ColumnList(t.columns) + ");"
  }

  /** The statement that drops one table and whatever depends on it. */
  function DropStatement(t: Table): string {
    "drop table rotulus." + t.name + " cascade;"
  }

  /** The create statements of a table list, in list order. */
  function CreateStatements(ts: seq<Table>): seq<string> {
    seq(|ts|, i requires 0 <= i < |ts| => CreateStatement(ts[i]))
  }

  /** The drop statements of a table list, in list order. */
  function DropStatements(ts: seq<Table>): seq<string> {
    seq(|ts|, i requires 0 <= i < |ts| => DropStatement(ts[i]))
  }

  /**
   Read from the left, the same text is the first part, then ", ", then
   the remaining parts joined; one part alone carries no separator.
   */
  lemma {:induction false} JoinCons(p: seq<string>)
    requires |p| > 0
    ensures |p| == 1 ==> Join(p) == p[0]
    ensures |p| > 1 ==> Join(p) == p[0] + ", " + Join(p[1..])
    decreases |p|
  {
    var n := |p|;
    if n > 2 {
      var q, r := p[..n - 1], p[1..];
      JoinCons(q);
      assert q[1..] == r[..n - 2];
      var x, y, z := p[0] + ", ", Join(q[1..]), ", " + p[n - 1];
      assert (x + y) + z == x + (y + z);
    } else if n == 2 {
      assert p[1..][..1] == [p[1]];
    }
  }

  /** Each part preceded by ", ", in order. */
  function Prefixed(parts: seq<string>): string
    decreases |parts|
  {
    if parts == [] then "" else ", " + parts[0] + Prefixed(parts[1..])
  }

  /**
   The joined text is the first part followed by every later part with its
   own separator in front: one separator between neighbours and none at
   either end.
   */
  lemma {:induction false} JoinIsFirstThenPrefixed(p: seq<string>)
    requires |p| > 0
    ensures Join(p) == p[0] + Prefixed(p[1..])
    decreases |p|
  {
    JoinCons(p);
    if |p| == 1 {
      assert p[1..] == [];
    } else {
      var r := p[1..];
      JoinIsFirstThenPrefixed(r);
      assert r[1..] == p[2..];
      var x, y := ", " + p[1], Prefixed(p[2..]);
      assert (p[0] + ", ") + (p[1] + y) == p[0] + (x + y);
    }
  }

  // ---------------------------------------------------------------------
  // Foreign keys
  // ---------------------------------------------------------------------

  /** The text that opens a foreign-key clause in a column's properties. */
  const ReferencePrefix: string := "references rotulus."

  /** The position of the dot after the schema name inside `ReferencePrefix`. */
  const SchemaDot: nat := |ReferencePrefix| - 1

  /** A foreign-key clause starts at position `i` of `props`. */
  predicate ReferenceAt(props: string, i: nat) {
    i + |ReferencePrefix| <= |props| && props[i..i + |ReferencePrefix|] == ReferencePrefix
  }

  /** The first position at or after `from` where a foreign-key clause starts. */
  function FindReference(props: string, from: nat): (r: Option<nat>)
    ensures r.Some? ==> from <= r.value && ReferenceAt(props, r.value)
    ensures forall j :: from <= j && (r.None? || j < r.value) ==> !ReferenceAt(props, j)
    decreases |props| - from
  {
    if from + |ReferencePrefix| > |props| then None
    else if ReferenceAt(props, from) then Some(from)
    else FindReference(props, from + 1)
  }

  /** The longest prefix of `s` that holds no opening parenthesis. */
  function NameBeforeParen(s: string): (r: string)
    ensures r <= s && '(' !in r
    ensures |r| < |s| ==> s[|r|] == '('
  {
    if s == [] || s[0] == '(' then "" else [s[0]] + NameBeforeParen(s[1..])
  }

  /**
   The table a column's properties refer to: the name between the first
   "references rotulus." and the parenthesis after it, if there is one.
   */
  function ReferencedTable(props: string): Option<string> {
    match FindReference(props, 0)
    case None => None
    case Some(i) => Some(NameAt(props, i))
  }

  /** The table name of the foreign-key clause that starts at position `i`. */
  function NameAt(props: string, i: nat): string
    requires ReferenceAt(props, i)
  {
    NameBeforeParen(props[i + |ReferencePrefix|..])
  }

  /** A foreign-key clause always contains the dot after the schema name. */
  lemma ReferenceNeedsDot(props: string)
    ensures ReferencedTable(props).Some? ==> '.' in props
  {
    var r := FindReference(props, 0);
    if r.Some? {
      var i := r.value;
      assert props[i..i + |ReferencePrefix|][SchemaDot] == '.';
      assert props[i + SchemaDot] == '.';
    }
  }

  /** A clause cannot start where the dot after the schema name is missing. */
  lemma NoDotNoReferenceAt(s: string, j: nat)
    requires j + SchemaDot < |s| && s[j + SchemaDot] != '.'
    ensures !ReferenceAt(s, j)
  {
    assert ReferencePrefix[SchemaDot] == '.';
  }

  /** A name followed by a parenthesis is read back unchanged. */
  lemma NameBeforeParenOf(t: string, rest: string)
    requires '(' !in t
    ensures NameBeforeParen(t + "(" + rest) == t
  {
    var s := t + "(" + rest;
    var r := NameBeforeParen(s);
    assert s[|t|] == '(';
  }

  /**
   Properties made of a plain type clause followed by one foreign-key
   clause refer to exactly the table named in that clause.
   */
  lemma ReferenceAfterType(pre: string, t: string)
    requires '.' !in pre && '(' !in t
    ensures ReferencedTable(pre + ReferencePrefix + t + "(id)") == Some(t)
  {
    var s := pre + ReferencePrefix + t + "(id)";
    var n := |pre|;
    assert s[n..n + |ReferencePrefix|] == ReferencePrefix;
    assert ReferenceAt(s, n);
    forall j | 0 <= j < n
      ensures !ReferenceAt(s, j)
    {
      if j + SchemaDot < n {
        assert s[j + SchemaDot] == pre[j + SchemaDot];
      } else {
        assert s[j + SchemaDot] == ReferencePrefix[j + SchemaDot - n];
      }
      NoDotNoReferenceAt(s, j);
    }
    assert FindReference(s, 0) == Some(n);
    assert s[n + |ReferencePrefix|..] == t + "(" + "id)";
    NameBeforeParenOf(t, "id)");
  }

  /**
   The split of a column into clause and foreign key is unambiguous: the
   clause holds no dot, and the referenced name neither a dot nor a
   parenthesis.
   */
  predicate ColumnWellFormed(c: Column) {
    && '.' !in c.definition
    && (c.references.Some? ==> '(' !in c.references.value && '.' !in c.references.value)
  }

  /** Reading the foreign key back from the properties text gives the column's reference. */
  lemma ColumnReference(c: Column)
    requires ColumnWellFormed(c)
    ensures ReferencedTable(Properties(c)) == c.references
  {
    match c.references
    case None =>
      ReferenceNeedsDot(c.definition);
    case Some(t) =>
      assert c.definition + " " + ReferencePrefix + t + "(id)" == (c.definition + " ") + ReferencePrefix + t + "(id)";
      ReferenceAfterType(c.definition + " ", t);
  }

  /** The only dot of `ReferencePrefix` is the one after the schema name. */
  lemma PrefixDotOnlyAtSchemaDot(k: nat)
    requires k < |ReferencePrefix| && k != SchemaDot
    ensures ReferencePrefix[k] != '.'
  {
  }

  /** Text around a middle part holds no dot outside that middle part's dots. */
  lemma NoDotOutside(a: string, m: string, b: string, q: nat)
    requires '.' !in a && '.' !in b && q < |a + m + b|
    requires !(|a| <= q < |a| + |m| && m[q - |a|] == '.')
    ensures (a + m + b)[q] != '.'
  {
  }

  /**
   The properties text of a well-formed column holds a foreign-key clause
   at exactly one position: right after its clause and a space when it has
   a foreign key, and nowhere when it has none.
   */
  lemma OnlyOneReference(c: Column)
    requires ColumnWellFormed(c)
    ensures forall p: nat :: ReferenceAt(Properties(c), p) <==> c.references.Some? && p == |c.definition| + 1
  {
    var s := Properties(c);
    match c.references
    case None =>
      forall p: nat
        ensures !ReferenceAt(s, p)
      {
        if p + SchemaDot < |s| {
          NoDotNoReferenceAt(s, p);
        }
      }
    case Some(t) =>
      var a, b := c.definition + " ", t + "(id)";
      assert s == a + ReferencePrefix + b;
      assert s[|a|..|a| + |ReferencePrefix|] == ReferencePrefix;
      forall p: nat | p != |a|
        ensures !ReferenceAt(s, p)
      {
        var q := p + SchemaDot;
        if q < |s| {
          if |a| <= q < |a| + |ReferencePrefix| {
            PrefixDotOnlyAtSchemaDot(q - |a|);
          }
          NoDotOutside(a, ReferencePrefix, b, q);
          NoDotNoReferenceAt(s, p);
        }
      }
  }

  /** Table `name` is declared at a position before `i`. */
  ghost predicate DeclaredBefore(ts: seq<Table>, name: string, i: int) {
    exists k :: 0 <= k < i && k < |ts| && ts[k].name == name
  }

  /** Every foreign-key clause in the properties text of a column of table `i` names a table declared before it. */
  ghost predicate ReferenceResolved(ts: seq<Table>, i: int, c: Column) {
    forall p: nat | ReferenceAt(Properties(c), p) :: DeclaredBefore(ts, NameAt(Properties(c), p), i)
  }

  /**
   Every foreign-key clause of a table list names a table declared earlier
   in the list, so creating the tables in list order never refers to a
   table that does not exist yet.
   */
  ghost predicate ReferencesEarlierTables(ts: seq<Table>) {
    forall i, j | 0 <= i < |ts| && 0 <= j < |ts[i].columns| :: ReferenceResolved(ts, i, ts[i].columns[j])
  }

  /** Every column of a table splits unambiguously. */
  ghost predicate TableWellFormed(t: Table) {
    forall j | 0 <= j < |t.columns| :: ColumnWellFormed(t.columns[j])
  }

  /** Every foreign key of table `i` names a table declared before it. */
  ghost predicate KeysPointBack(ts: seq<Table>, i: int)
    requires 0 <= i < |ts|
  {
    forall j | 0 <= j < |ts[i].columns| && ts[i].columns[j].references.Some? ::
      DeclaredBefore(ts, ts[i].columns[j].references.value, i)
  }

  /**
   When every column splits unambiguously, checking the foreign-key fields
   is enough: the clauses read back from the statement text agree with them.
   */
  lemma ReferencesFromKeys(ts: seq<Table>)
    requires forall i | 0 <= i < |ts| :: TableWellFormed(ts[i]) && KeysPointBack(ts, i)
    ensures ReferencesEarlierTables(ts)
  {
    forall i, j | 0 <= i < |ts| && 0 <= j < |ts[i].columns|
      ensures ReferenceResolved(ts, i, ts[i].columns[j])
    {
      var c := ts[i].columns[j];
      ColumnReference(c);
      OnlyOneReference(c);
    }
  }
}
