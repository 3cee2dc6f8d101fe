/**
 The fixed list of six tables the rotulus database tool creates in the
 `rotulus` schema, and what is proved about that list.
 */
module Schema {
  import opened Ddl

  const Usernames: Table := Table("usernames", [
    Column("id", "bigserial primary key", None),
    Column("username", "bytea not null unique", None)])

  const Domains: Table := Table("domains", [
    Column("id", "bigserial primary key", None),
    Column("domain", "bytea not null unique", None)])

  const Passwords: Table := Table("passwords", [
    Column("id", "bigserial primary key", None),
    Column("password", "bytea not null unique", None)])

  const HashesTypes: Table := Table("hashes_types", [
    Column("id", "serial primary key", None),
    Column("hash_type", "char(50) not null unique", None)])

  const Hashes: Table := Table("hashes", [
    Column("id", "bigserial primary key", None),
    Column("hash", "char(255) not null unique", None),
    Column("hash_type_id", "int", Some("hashes_types"))])

  const Records: Table := Table("records", [
    Column("id", "bigserial primary key", None),
    Column("username_id", "bigint not null", Some("usernames")),
    Column("domain_id", "bigint", Some("domains")),
    Column("password_id", "bigint", Some("passwords")),
    Column("hash_id", "bigint", Some("hashes"))])

  /** The six tables, in the order they are created and dropped. */
  const Tables: seq<Table> := [Usernames, Domains, Passwords, HashesTypes, Hashes, Records]

  /** None of the type and constraint clauses used by the table list holds a dot. */
  lemma ClausesHaveNoDot()
    ensures '.' !in "bigserial primary key" && '.' !in "serial primary key"
    ensures '.' !in "bytea not null unique" && '.' !in "char(50) not null unique"
    ensures '.' !in "char(255) not null unique" && '.' !in "int"
    ensures '.' !in "bigint not null" && '.' !in "bigint"
  {
  }

  /** Every column of the table list splits unambiguously. */
  lemma TablesWellFormed()
    ensures forall i | 0 <= i < |Tables| :: TableWellFormed(Tables[i])
  {
    ClausesHaveNoDot();
  }

  /** The foreign-key fields point backwards: hashes to hashes_types, records to the other four. */
  lemma TablesKeysPointBack()
    ensures forall i | 0 <= i < |Tables| :: KeysPointBack(Tables, i)
  {
    assert Tables[3].name == "hashes_types";
    assert Tables[0].name == "usernames" && Tables[1].name == "domains";
    assert Tables[2].name == "passwords" && Tables[4].name == "hashes";
  }

  /**
   Every `references rotulus.<table>(id)` clause in the statement text
   names a table created earlier in the list.
   */
  lemma TablesReferenceEarlier()
    ensures ReferencesEarlierTables(Tables)
  {
    TablesWellFormed();
    TablesKeysPointBack();
    ReferencesFromKeys(Tables);
  }
}
