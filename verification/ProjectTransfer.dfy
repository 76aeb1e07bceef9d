/** Moving a project, and every row scoped to it, from one company to another in one transaction. */
module ProjectTransfer {
  import opened Wrappers

  type Id = string

  datatype Project = Project(company: Id, name: string, webhook: string)

  /** A row of a table that carries both a project and a company. */
  datatype Row = Row(project: Id, company: Id, payload: string)

  datatype Table = Table(name: string, rows: seq<Row>)

  /** The part of the database a transfer reads and writes: `tables` are all the tables with
      both columns but `projects` itself, by name. */
  datatype Database = Database(projects: map<Id, Project>, companies: map<Id, string>, tables: seq<Table>)

  datatype TransferError = ProjectNotFound | SourceMismatch | TargetNotFound | DatabaseError

  /** The report; a transfer that does nothing has no webhook to tell. */
  datatype Report = Report(
    projectUpdated: bool,
    company: Id,
    webhook: Option<string>,
    updatedTables: seq<(string, nat)>)

  // ---------------------------------------------------------------- one update statement

  /** `UPDATE t SET company_id = target WHERE project_id = project AND company_id = source` */
  function MovedRow(row: Row, project: Id, source: Id, target: Id): Row {
    if row.project == project && row.company == source then row.(company := target) else row
  }

  function MovedRows(rows: seq<Row>, project: Id, source: Id, target: Id): (r: seq<Row>)
    ensures |r| == |rows| && forall i | 0 <= i < |r| :: r[i] == MovedRow(rows[i], project, source, target)
  {
    seq(|rows|, i requires 0 <= i < |rows| => MovedRow(rows[i], project, source, target))
  }

  /** The row count the statement reports. */
  function Matching(rows: seq<Row>, project: Id, source: Id): nat
    decreases |rows|
  {
    if rows == [] then 0
    else
      Matching(rows[..|rows| - 1], project, source)
      + (if rows[|rows| - 1].project == project && rows[|rows| - 1].company == source then 1 else 0)
  }

  function MovedTable(t: Table, project: Id, source: Id, target: Id): Table {
    Table(t.name, MovedRows(t.rows, project, source, target))
  }

  // ---------------------------------------------------------------- the whole transfer

  function MovedTables(tables: seq<Table>, project: Id, source: Id, target: Id): (r: seq<Table>)
    ensures |r| == |tables| && forall i | 0 <= i < |r| :: r[i] == MovedTable(tables[i], project, source, target)
  {
    seq(|tables|, i requires 0 <= i < |tables| => MovedTable(tables[i], project, source, target))
  }

  /** The tables with rows to move, and how many each. */
  function Counts(tables: seq<Table>, project: Id, source: Id, n: nat): seq<(string, nat)>
    requires n <= |tables|
  {
    if n == 0 then []
    else
      var count := Matching(tables[n - 1].rows, project, source);
      Counts(tables, project, source, n - 1) + (if count > 0 then [(tables[n - 1].name, count)] else [])
  }

  function Webhook(slug: string -> string, company: string, project: string): string {
    "/api/v1/webhooks/github/" + slug(company) + "/" + slug(project)
  }

  /** Why a transfer between different companies is refused, if it is. */
  function Refusal(db: Database, project: Id, source: Id, target: Id): Option<TransferError> {
    if project !in db.projects || db.projects[project].company !in db.companies then Some(ProjectNotFound)
    else if db.projects[project].company != source then Some(SourceMismatch)
    else if target !in db.companies || db.companies[target] == "" then Some(TargetNotFound)
    else None
  }

  function Transferred(db: Database, slug: string -> string, project: Id, source: Id, target: Id): Database
    requires Refusal(db, project, source, target) == None
  {
    var p := db.projects[project];
    Database(
      db.projects[project := Project(target, p.name, Webhook(slug, db.companies[target], p.name))],
      db.companies,
      MovedTables(db.tables, project, source, target))
  }

  class ProjectRepository {
    var projects: map<Id, Project>
    var companies: map<Id, string>
    var tables: seq<Table>
    const slug: string -> string

    constructor (db: Database, slug: string -> string)
      ensures State() == db && this.slug == slug
    {
      projects, companies, tables := db.projects, db.companies, db.tables;
      this.slug := slug;
    }

    function State(): Database
      reads this
    {
      Database(projects, companies, tables)
    }

    /** One table's update, with the count the statement reports. */
    method UpdateTable(i: nat, project: Id, source: Id, target: Id) returns (count: nat)
      requires i < |tables|
      modifies this`tables
      ensures count == Matching(old(tables[i].rows), project, source)
      ensures tables == old(tables)[i := MovedTable(old(tables[i]), project, source, target)]
    {
      var rows := tables[i].rows;
      var n := 0;
      for k := 0 to |rows|
        invariant n == Matching(rows[..k], project, source)
      {
        assert rows[..k + 1][..k] == rows[..k];
        if rows[k].project == project && rows[k].company == source {
          n := n + 1;
        }
      }
      assert rows[..|rows|] == rows;
      tables := tables[i := Table(tables[i].name, MovedRows(rows, project, source, target))];
      count := n;
    }

    /** The loop over the scoped tables; `None` when the database fails at one of them. */
    method UpdateTables(project: Id, source: Id, target: Id, failsAt: Option<nat>)
      returns (updated: Option<seq<(string, nat)>>)
      requires failsAt != Some(0)
      modifies this`tables
      ensures updated.None? <==> failsAt.Some? && failsAt.value <= |old(tables)|
      ensures updated.Some? ==>
                && updated.value == Counts(old(tables), project, source, |old(tables)|)
                && tables == MovedTables(old(tables), project, source, target)
    {
      ghost var before := tables;
      var counts: seq<(string, nat)> := [];
      for i := 0 to |tables|
        invariant failsAt.Some? ==> failsAt.value > i
        invariant |tables| == |before| && counts == Counts(before, project, source, i)
        invariant forall k | 0 <= k < i :: tables[k] == MovedTable(before[k], project, source, target)
        invariant forall k | i <= k < |tables| :: tables[k] == before[k]
      {
        if failsAt == Some(i + 1) {
          return None;
        }
        var count := UpdateTable(i, project, source, target);
        if count > 0 {
          counts := counts + [(tables[i].name, count)];
        }
      }
      assert tables == MovedTables(before, project, source, target);
      updated := Some(counts);
    }

    /** `transfer_company_scope`. The database may fail at any one of the update statements,
        the project's own first and then one for each table; an error inside the transaction
        rolls everything back. */
    method TransferCompanyScope(project: Id, source: Id, target: Id, failsAt: Option<nat>)
      returns (r: Result<Report, TransferError>)
      modifies this
      ensures source == target ==> r == Success(Report(false, source, None, []))
      ensures source != target ==>
                r == match Refusal(old(State()), project, source, target)
                     case Some(e) => Failure(e)
                     case None =>
                       if failsAt.Some? && failsAt.value <= |old(tables)| then Failure(DatabaseError)
                       else Success(Report(true, target,
                                           Some(Webhook(slug, old(companies)[target], old(projects)[project].name)),
                                           Counts(old(tables), project, source, |old(tables)|)))
      ensures State() == if r.Failure? || source == target then old(State())
                         else Transferred(old(State()), slug, project, source, target)
      ensures r.Success? <==>
                || source == target
                || (&& project in old(projects) && old(projects)[project].company == source
                    && source in old(companies) && target in old(companies) && old(companies)[target] != ""
                    && (failsAt.Some? ==> failsAt.value > |old(tables)|))
      ensures r.Failure? ==>
                match r.error
                case ProjectNotFound =>
                  project in old(projects) ==> old(projects)[project].company !in old(companies)
                case SourceMismatch => project in old(projects) && old(projects)[project].company != source
                case TargetNotFound => target in old(companies) ==> old(companies)[target] == ""
                case DatabaseError => failsAt.Some? && failsAt.value <= |old(tables)|
    {
      if source == target {
        return Success(Report(false, source, None, []));
      }
      var savedProjects, savedTables := projects, tables; // what a rollback restores
      var refusal := Refusal(State(), project, source, target);
      if refusal.Some? {
        return Failure(refusal.value);
      }
      if failsAt == Some(0) {
        return Failure(DatabaseError);
      }
      var p := projects[project];
      var newWebhook := Webhook(slug, companies[target], p.name);
      projects := projects[project := Project(target, p.name, newWebhook)];
      var updated := UpdateTables(project, source, target, failsAt);
      if updated.None? {
        projects, tables := savedProjects, savedTables;
        return Failure(DatabaseError);
      }
      r := Success(Report(true, target, Some(newWebhook), updated.value));
    }
  }

  // ---------------------------------------------------------------- theorems

  /** A row's company is its project's. */
  predicate Owned(db: Database, row: Row) {
    row.project in db.projects ==> row.company == db.projects[row.project].company
  }

  predicate Consistent(db: Database) {
    forall t, i | 0 <= t < |db.tables| && 0 <= i < |db.tables[t].rows| :: Owned(db, db.tables[t].rows[i])
  }

  /** When a row ends up with its project's company. */
  predicate Movable(db: Database, project: Id, source: Id, target: Id, row: Row) {
    if row.project == project then row.company == source || row.company == target else Owned(db, row)
  }

  /** After a transfer every scoped row has its project's company exactly when the rows of
      other projects had theirs and the project's own had the source or the target; in
      particular a consistent database stays consistent. */
  lemma TransferKeepsConsistency(db: Database, slug: string -> string, project: Id, source: Id, target: Id)
    requires source != target && Refusal(db, project, source, target) == None
    ensures Consistent(Transferred(db, slug, project, source, target)) <==>
              forall t, i | 0 <= t < |db.tables| && 0 <= i < |db.tables[t].rows| ::
                Movable(db, project, source, target, db.tables[t].rows[i])
    ensures Consistent(db) ==> Consistent(Transferred(db, slug, project, source, target))
  {
  }

  /** The project goes to the target, under the webhook address of the new company's and its own
      name, and exactly those of its rows that were with the source go with it. */
  lemma TransferMovesTheProject(db: Database, slug: string -> string, project: Id, source: Id, target: Id,
                                t: nat, i: nat)
    requires Refusal(db, project, source, target) == None
    requires t < |db.tables| && i < |db.tables[t].rows|
    ensures var after, name := Transferred(db, slug, project, source, target), db.projects[project].name;
            && project in after.projects
            && after.projects[project]
               == Project(target, name, "/api/v1/webhooks/github/" + slug(db.companies[target]) + "/" + slug(name))
            && t < |after.tables| && i < |after.tables[t].rows|
            && var row := db.tables[t].rows[i];
               after.tables[t].rows[i].company
               == if row.project == project && row.company == source then target else row.company
  {
  }

  /** Nothing but the company of the project's own rows changes, and no row comes or goes. */
  lemma TransferTouchesOnlyTheProject(db: Database, slug: string -> string, project: Id, source: Id, target: Id)
    requires source != target && Refusal(db, project, source, target) == None
    ensures var after := Transferred(db, slug, project, source, target);
            && after.companies == db.companies && after.projects.Keys == db.projects.Keys
            && (forall p | p in db.projects && p != project :: after.projects[p] == db.projects[p])
            && |after.tables| == |db.tables|
            && forall t | 0 <= t < |db.tables| ::
                 && after.tables[t].name == db.tables[t].name
                 && |after.tables[t].rows| == |db.tables[t].rows|
                 && forall i | 0 <= i < |db.tables[t].rows| ::
                      && (db.tables[t].rows[i].project != project ==> after.tables[t].rows[i] == db.tables[t].rows[i])
                      && after.tables[t].rows[i].(company := "") == db.tables[t].rows[i].(company := "")
  {
  }

  /** How many rows differ, place by place. */
  function Changed(a: seq<Row>, b: seq<Row>): nat
    requires |a| == |b|
    decreases |a|
  {
    if a == [] then 0
    else Changed(a[..|a| - 1], b[..|b| - 1]) + (if a[|a| - 1] != b[|b| - 1] then 1 else 0)
  }

  lemma {:induction false} MatchingRowsChange(rows: seq<Row>, project: Id, source: Id, target: Id)
    requires source != target
    ensures Matching(rows, project, source) == Changed(rows, MovedRows(rows, project, source, target))
    decreases |rows|
  {
    if rows != [] {
      var init := rows[..|rows| - 1];
      MatchingRowsChange(init, project, source, target);
      assert MovedRows(rows, project, source, target)[..|rows| - 1] == MovedRows(init, project, source, target);
    }
  }

  /** Table names are unique, so the reported list reads as a dictionary. */
  predicate NamesUnique(tables: seq<Table>) {
    forall i, j | 0 <= i < j < |tables| :: tables[i].name != tables[j].name
  }

  lemma {:induction false} CountsAre(tables: seq<Table>, project: Id, source: Id, target: Id, n: nat,
                                     name: string, count: nat)
    requires n <= |tables| && source != target && NamesUnique(tables)
    ensures (name, count) in Counts(tables, project, source, n) <==>
              && count > 0
              && exists t :: && 0 <= t < n && tables[t].name == name
                             && Changed(tables[t].rows, MovedRows(tables[t].rows, project, source, target)) == count
  {
    if n > 0 {
      CountsAre(tables, project, source, target, n - 1, name, count);
      MatchingRowsChange(tables[n - 1].rows, project, source, target);
    }
  }

  /** Moving a project there and back restores every row exactly when none of its rows was
      already with the target. */
  lemma ThereAndBack(db: Database, slug: string -> string, project: Id, source: Id, target: Id)
    requires source != target && Refusal(db, project, source, target) == None && db.companies[source] != ""
    ensures var there := Transferred(db, slug, project, source, target);
            && Refusal(there, project, target, source) == None
            && (Transferred(there, slug, project, target, source).tables == db.tables <==>
                  forall t, i | 0 <= t < |db.tables| && 0 <= i < |db.tables[t].rows| ::
                    !Stray(db.tables[t].rows[i], project, target))
  {
    var there := Transferred(db, slug, project, source, target);
    var back := Transferred(there, slug, project, target, source);
    forall t, i | 0 <= t < |db.tables| && 0 <= i < |db.tables[t].rows|
      ensures back.tables[t].rows[i] == db.tables[t].rows[i] <==> !Stray(db.tables[t].rows[i], project, target)
    {
      RowThereAndBack(db.tables[t].rows[i], project, source, target);
    }
    if forall t, i | 0 <= t < |db.tables| && 0 <= i < |db.tables[t].rows| ::
         !Stray(db.tables[t].rows[i], project, target)
    {
      forall t | 0 <= t < |db.tables| ensures back.tables[t] == db.tables[t] {
        assert forall i | 0 <= i < |db.tables[t].rows| :: !Stray(db.tables[t].rows[i], project, target);
        assert back.tables[t].rows == db.tables[t].rows;
      }
    }
  }

  /** A row of the project that is with the target already. */
  predicate Stray(row: Row, project: Id, target: Id) {
    row.project == project && row.company == target
  }

  lemma RowThereAndBack(row: Row, project: Id, source: Id, target: Id)
    requires source != target
    ensures MovedRow(MovedRow(row, project, source, target), project, target, source) == row
       <==> !Stray(row, project, target)
  {
  }

  /** A row that was with the target comes back with the source. */
  lemma StrayRowComesBackMoved(db: Database, slug: string -> string)
    requires db == Database(map["p" := Project("a", "", "")], map["a" := "A", "b" := "B"],
                            [Table("t", [Row("p", "b", "")])])
    ensures var there := Transferred(db, slug, "p", "a", "b");
            Transferred(there, slug, "p", "b", "a").tables == [Table("t", [Row("p", "a", "")])]
  {
    var back := Transferred(Transferred(db, slug, "p", "a", "b"), slug, "p", "b", "a");
    assert back.tables[0].rows[0] == Row("p", "a", "");
    assert back.tables[0].rows == [Row("p", "a", "")];
  }

  /** In a consistent database there and back is the identity, webhook included if it was the
      one the source company's name gives. */
  lemma RoundTripRestores(db: Database, slug: string -> string, project: Id, source: Id, target: Id)
    requires source != target && Refusal(db, project, source, target) == None && db.companies[source] != ""
    requires Consistent(db)
    ensures var back := Transferred(Transferred(db, slug, project, source, target), slug, project, target, source);
            back == db
            <==> db.projects[project].webhook == Webhook(slug, db.companies[source], db.projects[project].name)
  {
    forall t, i | 0 <= t < |db.tables| && 0 <= i < |db.tables[t].rows|
      ensures !Stray(db.tables[t].rows[i], project, target)
    {
      assert Owned(db, db.tables[t].rows[i]);
    }
    ThereAndBack(db, slug, project, source, target);
    var back := Transferred(Transferred(db, slug, project, source, target), slug, project, target, source);
    var p := db.projects[project];
    assert back.projects[project] == Project(source, p.name, Webhook(slug, db.companies[source], p.name));
    assert back.projects == db.projects[project := back.projects[project]];
    if p == back.projects[project] {
      assert back.projects == db.projects;
    }
  }
}
