/** The background worker that executes a deletion task, phase by phase. Every outcome of
    an external call is left open, and so is whether a call that failed had already acted. */
module DeletionWorker {
  import opened DeletionProtocol
  import opened DeletionSafety

  datatype PhaseResult = Done | Stopped | Raised

  class Worker {
    const owned: seq<CompanyId>
    const reliable: bool        // whether every call to the database and the stores succeeds
    var committed: Durable      // what the database and the external stores hold
    var session: Durable        // what the worker's session sees, not all of it committed
    ghost var history: seq<Durable>

    ghost predicate Valid()
      reads this
    {
      && IsRun(owned, history)
      && Begins(owned, history[0])
      && history[|history| - 1] == committed
    }

    /** A worker that takes a deletion up from its stored state, be it new or left by a crash. */
    constructor Resume(owned: seq<CompanyId>, stored: Durable, reliable: bool, ghost run: seq<Durable>)
      requires IsRun(owned, run) && Begins(owned, run[0]) && run[|run| - 1] == stored
      ensures Valid() && session == committed == stored && history == run
      ensures this.owned == owned && this.reliable == reliable
    {
      this.owned, this.reliable := owned, reliable;
      committed, session, history := stored, stored, run;
    }

    // ------------------------------------------------------------ the session

    method Commit()
      requires Valid() && Step(owned, committed, session)
      modifies this
      ensures Valid() && committed == session == old(session)
      ensures history == old(history) + [session]
    {
      RunGoesOn(owned, history, session);
      history := history + [session];
      committed := session;
    }

    method Rollback()
      modifies `session
      ensures session == committed
    {
      session := committed;
    }

    method Fail()
      requires Valid() && session == committed
      requires committed.status in {SessionInvalidation, ExternalCleanup, PostgresDeletion}
      modifies this
      ensures Valid() && session == committed == old(committed).(status := Failed)
      ensures history == old(history) + [committed]
    {
      session := session.(status := Failed);
      Commit();
    }

    /** Whether a call succeeds: always on reliable stores, otherwise open. */
    method Answer() returns (ok: bool)
      ensures reliable ==> ok
    {
      ok := *;
      ok := ok || reliable;
    }

    // ------------------------------------------------------------ calls to other stores

    method RevokeSessions() returns (ok: bool)
      requires Valid() && session == committed && committed.status == SessionInvalidation
      modifies this
      ensures Valid() && session == committed && old(history) <= history
      ensures committed == old(committed).(revoked := committed.revoked)
      ensures ok ==> committed.revoked
      ensures reliable ==> ok
    {
      ok := Answer();
      var acted: bool := *;
      if ok || acted {
        session := session.(revoked := true);
        Commit();
      }
    }

    method PurgeCollection(c: Collection, projects: set<ProjectId>) returns (ok: bool)
      requires Valid() && session == committed && committed.status == ExternalCleanup
      requires c in committed.vectors && projects == OwnedProjects(committed.rows, owned)
      modifies this
      ensures Valid() && session == committed && old(history) <= history
      ensures committed == old(committed).(vectors := committed.vectors)
      ensures committed.vectors.Keys == old(committed).vectors.Keys
      ensures forall e | e in committed.vectors && e != c :: committed.vectors[e] == old(committed).vectors[e]
      ensures forall i | i in old(committed).vectors[c] && !Matches(i, projects, owned) :: i in committed.vectors[c]
      ensures reliable ==> ok
      ensures ok ==> forall i | i in committed.vectors[c] :: !Matches(i, projects, owned)
    {
      ok := Answer();
      var acted: bool := *;
      if ok || acted {
        session := session.(vectors := session.vectors[c := Purged(session.vectors[c], projects, owned)]);
        assert PurgeStep(owned, committed, session);
        Commit();
      }
    }

    method PurgeNodes(projects: set<ProjectId>) returns (ok: bool)
      requires Valid() && session == committed && committed.status == ExternalCleanup
      requires projects == OwnedProjects(committed.rows, owned)
      modifies this
      ensures Valid() && session == committed && old(history) <= history
      ensures committed == old(committed).(nodes := committed.nodes)
      ensures forall n | n in old(committed).nodes && !Matches(n, projects, owned) :: n in committed.nodes
      ensures reliable ==> ok
      ensures ok ==> forall n | n in committed.nodes :: !Matches(n, projects, owned)
    {
      ok := Answer();
      var acted: bool := *;
      if ok || acted {
        session := session.(nodes := Purged(session.nodes, projects, owned));
        assert PurgeStep(owned, committed, session);
        Commit();
      }
    }

    // ------------------------------------------------------------ phase 0

    method InvalidateSessions() returns (ok: bool)
      requires Valid() && session == committed && committed.status in {Pending, SessionInvalidation}
      modifies this
      ensures Valid() && session == committed && old(history) <= history
      ensures committed.rows == old(committed).rows
      ensures if ok then committed.status == SessionInvalidation && committed.revoked else committed.status == Failed
      ensures reliable ==> ok
    {
      session := session.(status := SessionInvalidation);
      Commit();
      ok := RevokeSessions();
      if !ok {
        Fail();
      }
    }

    // ------------------------------------------------------------ phase 1

    /** The status is committed with an empty log, whatever an earlier attempt had logged. */
    method BeginCleanup()
      requires Valid() && session == committed
      requires committed.status == ExternalCleanup || (committed.status == SessionInvalidation && committed.revoked)
      modifies this
      ensures Valid() && session == committed && old(history) <= history
      ensures committed == old(committed).(status := ExternalCleanup, cleanup := EMPTY_LOG)
    {
      session := session.(status := ExternalCleanup, cleanup := EMPTY_LOG);
      Commit();
    }

    method ReportCleaned(noCompanies: bool)
      requires Valid() && session == committed && committed.status == ExternalCleanup
      requires if noCompanies then owned == [] else Thorough(committed.cleanup)
      modifies this
      ensures Valid() && session == committed && old(history) <= history
      ensures committed.status == ExternalCleanup && committed.rows == old(committed).rows
      ensures committed.cleanup.completed && Thorough(committed.cleanup)
    {
      session := session.(cleanup := session.cleanup.(completed := true));
      if noCompanies { session := session.(cleanup := session.cleanup.(noCompanies := true)); }
      assert CleanupStep(owned, committed, session);
      Commit();
    }

    method CleanExternalStores() returns (r: PhaseResult)
      requires Valid() && session == committed
      requires committed.status == ExternalCleanup || (committed.status == SessionInvalidation && committed.revoked)
      modifies this
      ensures Valid() && session == committed && old(history) <= history
      ensures committed.rows == old(committed).rows
      ensures r.Done? ==>
                committed.status == ExternalCleanup && committed.cleanup.completed && Thorough(committed.cleanup)
      ensures r.Stopped? ==> committed.status == Failed
      ensures reliable ==> r.Done?
      ensures r.Raised? ==> committed.status == ExternalCleanup
    {
      BeginCleanup();

      var projects: set<ProjectId> := {};
      if owned != [] {
        var answered := Answer();
        if !answered {
          return Raised;
        }
        projects := OwnedProjects(session.rows, owned);
      }

      if owned == [] {
        ReportCleaned(true);
        return Done;
      }

      r := CleanCollections(projects);
      if r == Stopped {
        return;
      }
      CleanGraph(projects);
      ReportCleaned(false);
      r := Done;
    }

    method LogEntry(e: CollectionEntry)
      requires Valid() && session == committed && committed.status == ExternalCleanup
      requires |committed.cleanup.collections| < |COLLECTIONS|
      requires e.collection == COLLECTIONS[|committed.cleanup.collections|] && EntryHolds(committed, owned, e)
      modifies `session
      ensures session == committed.(cleanup := committed.cleanup.(collections := committed.cleanup.collections + [e]))
      ensures Step(owned, committed, session)
    {
      session := session.(cleanup := session.cleanup.(collections := session.cleanup.collections + [e]));
      assert CleanupStep(owned, committed, session);
    }

    /** One turn of the loop. An `Absent` entry is left for the next commit. */
    method CleanCollection(i: nat, projects: set<ProjectId>) returns (ok: bool)
      requires i < |COLLECTIONS| && Valid() && Step(owned, committed, session)
      requires session == committed.(cleanup := session.cleanup) && LoggedUpTo(session.cleanup, i)
      requires committed.status == ExternalCleanup && projects == OwnedProjects(committed.rows, owned)
      modifies this
      ensures Valid() && old(history) <= history && committed.rows == old(committed).rows
      ensures reliable ==> ok
      ensures ok ==>
                && committed.status == ExternalCleanup && Step(owned, committed, session)
                && session == committed.(cleanup := session.cleanup) && LoggedUpTo(session.cleanup, i + 1)
      ensures !ok ==> session == committed && committed.status == Failed
    {
      Commit(); // the phase marker, and an `Absent` entry not yet committed
      var listed := Answer();
      if !listed {
        Fail();
        return false;
      }
      var collection := COLLECTIONS[i];
      if collection !in session.vectors {
        LogEntry(Absent(collection));
        return true;
      }
      ok := PurgeCollection(collection, projects);
      if !ok {
        Fail();
        return;
      }
      LogEntry(Cleaned(collection, projects));
      Commit();
    }

    method CleanCollections(projects: set<ProjectId>) returns (r: PhaseResult)
      requires Valid() && session == committed
      requires committed.status == ExternalCleanup && committed.cleanup == EMPTY_LOG
      requires projects == OwnedProjects(committed.rows, owned)
      modifies this
      ensures Valid() && old(history) <= history
      ensures session == committed
      ensures committed.rows == old(committed).rows
      ensures r.Done? ==>
                && committed.status == ExternalCleanup
                && (committed.cleanup.vectorsSkipped || LoggedUpTo(committed.cleanup, |COLLECTIONS|))
      ensures !r.Done? ==> r == Stopped && committed.status == Failed
      ensures reliable ==> r.Done?
    {
      var connected := Answer();
      if !connected {
        session := session.(cleanup := session.cleanup.(vectorsSkipped := true));
        assert CleanupStep(owned, committed, session);
        Commit();
        return Done;
      }
      for i := 0 to |COLLECTIONS|
        invariant Valid() && old(history) <= history
        invariant session == committed.(cleanup := session.cleanup) && Step(owned, committed, session)
        invariant committed.status == ExternalCleanup && committed.rows == old(committed).rows
        invariant LoggedUpTo(session.cleanup, i)
      {
        var ok := CleanCollection(i, projects);
        if !ok {
          return Stopped;
        }
      }
      Commit(); // the marker of the graph clean-up
      r := Done;
    }

    /** A failure here is logged as a skip and does not stop the deletion. */
    method CleanGraph(projects: set<ProjectId>)
      requires Valid() && session == committed
      requires committed.status == ExternalCleanup
      requires projects == OwnedProjects(committed.rows, owned)
      modifies this
      ensures Valid() && session == committed && old(history) <= history
      ensures committed.rows == old(committed).rows && committed.status == ExternalCleanup
      ensures committed.cleanup == old(committed).cleanup.(nodesDeleted := committed.cleanup.nodesDeleted,
                                                          graphSkipped := committed.cleanup.graphSkipped)
      ensures committed.cleanup.nodesDeleted || committed.cleanup.graphSkipped
    {
      var connected := Answer();
      var ok := false;
      if connected {
        ok := PurgeNodes(projects);
        if ok {
          session := session.(cleanup := session.cleanup.(nodesDeleted := true));
          assert CleanupStep(owned, committed, session);
          Commit();
          ok := Answer(); // closing the driver
        }
      }
      if !ok {
        session := session.(cleanup := session.cleanup.(graphSkipped := true));
        assert CleanupStep(owned, committed, session);
        Commit();
      }
    }

    // ------------------------------------------------------------ phase 2

    method DeleteRows() returns (ok: bool)
      requires Valid() && session == committed
      requires || committed.status == PostgresDeletion
               || (committed.status == ExternalCleanup && committed.cleanup.completed)
      modifies this
      ensures Valid() && session == committed && old(history) <= history
      ensures reliable ==> ok
      ensures ok ==> committed.status == PostgresDeletion && !committed.rows.user
      ensures !ok ==> committed.status == Failed
    {
      session := session.(status := PostgresDeletion, companiesTotal := |owned|, companiesDeleted := 0);
      Commit();
      for i := 0 to |owned|
        invariant Valid() && session == committed && old(history) <= history
        invariant committed.status == PostgresDeletion && committed.companiesDeleted == i
      {
        Commit(); // the phase marker
        var answered := Answer();
        if !answered {
          Rollback();
          Fail();
          return false;
        }
        session := session.(rows := WithoutCompany(session.rows, owned[i]));
        session := session.(companiesDeleted := i + 1);
        assert RowStep(owned, committed, session);
        Commit();
      }
      ok := DeleteUser();
    }

    /** Memberships, roles and the user row go in one transaction. */
    method DeleteUser() returns (ok: bool)
      requires Valid() && session == committed
      requires committed.status == PostgresDeletion && committed.companiesDeleted == |owned|
      modifies this
      ensures Valid() && session == committed && old(history) <= history
      ensures reliable ==> ok
      ensures ok ==> committed == old(committed).(rows := WithoutUser(old(committed).rows))
      ensures !ok ==> committed == old(committed).(status := Failed)
    {
      var answered := Answer();
      if answered {
        session := session.(rows := session.rows.(memberships := {}));
        answered := Answer();
      }
      if answered {
        session := session.(rows := session.rows.(roles := {}));
        answered := Answer();
      }
      if answered {
        session := session.(rows := session.rows.(user := false));
      } else {
        Rollback();
        Fail();
        return false;
      }
      assert RowStep(owned, committed, session);
      Commit();
      return true;
    }

    // ------------------------------------------------------------ the orchestrator

    method Execute() returns (r: PhaseResult)
      requires Valid() && session == committed
      modifies this
      ensures Valid() && old(history) <= history
      ensures r.Done? <==> committed.status == Completed
      ensures reliable ==> r.Done?
      ensures !r.Done? ==> committed.status == Failed
      ensures r.Done? && old(committed).status !in {Completed, Failed} ==> AllGone(owned, committed.rows)
      ensures old(committed).status in {Completed, Failed} ==> r.Done? && committed.rows == old(committed).rows
    {
      if session.status == Pending || session.status == SessionInvalidation {
        var ok := InvalidateSessions();
        if !ok {
          return Stopped;
        }
      }
      if session.status == SessionInvalidation || session.status == ExternalCleanup {
        r := CleanExternalStores();
        if r == Raised {
          Fail();
          return Raised;
        }
        if r == Stopped {
          return;
        }
      }
      if session.status == ExternalCleanup || session.status == PostgresDeletion {
        var ok := DeleteRows();
        if !ok {
          return Stopped;
        }
        RunSound(owned, history, |history| - 1);
        GoneWithTheUser(owned, history[0].rows, committed.rows);
      }
      session := session.(status := Completed);
      Commit();
      return Done;
    }
  }
}
