/**
 * The decision logic of `migrate info`: one status line per resolved `up` migration,
 * comparing the file's checksum with the one recorded for its version. Unlike run and
 * revert, info makes no dirty-row or missing-file check.
 */
module Info {
  import opened Wrappers
  import opened MigrationFile
  import opened Resolver
  import opened Ledger

  /** "installed (different checksum)", "installed" and "pending". */
  datatype Status = Mismatch | Installed | Pending

  datatype InfoLine = InfoLine(migration: Migration, status: Status)

  function StatusOf(m: Migration, l: Ledger): (s: Status)
    ensures s == Mismatch <==> m.version in l && l[m.version].checksum != m.checksum
    ensures s == Installed <==> m.version in l && l[m.version].checksum == m.checksum
    ensures s == Pending <==> m.version !in l
  {
    if m.version in l && l[m.version].checksum != m.checksum then Mismatch
    else if m.version in l then Installed
    else Pending
  }

  /** The `up` migrations of `ms`, in order. */
  function Ups(ms: seq<Migration>): (r: seq<Migration>)
    ensures forall m :: m in r <==> m in ms && m.direction == Up
  {
    if |ms| == 0 then []
    else if ms[0].direction == Up then [ms[0]] + Ups(ms[1..])
    else Ups(ms[1..])
  }

  /**
   * Taking the `up` migrations commutes with concatenation, and a single migration is
   * kept exactly when it is an `up` one: `Ups` is the order-keeping filter, so the `up`
   * migrations of an earlier part of the list come first.
   */
  lemma {:induction false} UpsAppend(a: seq<Migration>, b: seq<Migration>)
    ensures Ups(a + b) == Ups(a) + Ups(b)
    ensures |a| == 1 ==> Ups(a) == if a[0].direction == Up then a else []
  {
    if |a| > 0 {
      assert (a + b)[1..] == a[1..] + b;
      UpsAppend(a[1..], b);
    } else {
      assert a + b == b;
    }
  }

  /** The lines `migrate info` prints, one per `up` migration in resolved order. */
  function InfoList(ms: seq<Migration>, l: Ledger): (r: seq<InfoLine>)
    ensures |r| == |Ups(ms)|
    ensures forall i :: 0 <= i < |r| ==> r[i].migration == Ups(ms)[i]
    ensures forall i :: 0 <= i < |r| ==>
              var v := r[i].migration.version;
              var c := r[i].migration.checksum;
              && (r[i].status == Mismatch <==> (v in l && l[v].checksum != c))
              && (r[i].status == Installed <==> (v in l && l[v].checksum == c))
              && (r[i].status == Pending <==> v !in l)
  {
    var ups := Ups(ms);
    seq(|ups|, i requires 0 <= i < |ups| => InfoLine(ups[i], StatusOf(ups[i], l)))
  }

  /**
   * Info looks only at versions and checksums: two tables recording the same checksums
   * for the same versions give the same lines, whatever their `success` flags say.
   */
  lemma InfoIgnoresDirtyRows(ms: seq<Migration>, l: Ledger, l': Ledger)
    requires l.Keys == l'.Keys
    requires forall v :: v in l ==> l[v].checksum == l'[v].checksum
    ensures InfoList(ms, l) == InfoList(ms, l')
  {
  }

  /**
   * With a collision-free digest, editing an applied file shows up: if its version was
   * recorded with the digest of other content, its line says the checksum differs.
   */
  lemma EditedFileMismatches(name: string, recorded: seq<byte>, content: seq<byte>, oracle: FileOracle, l: Ledger)
    requires forall a: seq<byte>, b: seq<byte> :: oracle.digest(a) == oracle.digest(b) ==> a == b
    requires recorded != content
    requires FromFile(name, content, oracle).Ok?
    requires FromFile(name, content, oracle).value.version in l
    requires l[FromFile(name, content, oracle).value.version].checksum == oracle.digest(recorded)
    ensures StatusOf(FromFile(name, content, oracle).value, l) == Mismatch
  {
    FromFileSpec(name, content, oracle);
  }
}
