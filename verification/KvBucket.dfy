/** A revisioned key of a JetStream KV bucket: every accepted write appends an
    entry with a larger revision, and a conditional write is accepted only when
    its expected revision is the newest one. */
module KvBucket {
  import opened Wire

  datatype Entry<V, W> = Entry(value: V, revision: nat, writer: W)

  ghost predicate Increasing<V, W>(log: seq<Entry<V, W>>) {
    forall i, j :: 0 <= i < j < |log| ==> log[i].revision < log[j].revision
  }

  /** Whether a write expecting `last` (None: the key must not exist) is accepted. */
  ghost predicate Matches<V, W>(log: seq<Entry<V, W>>, last: Option<nat>) {
    match last
    case None => log == []
    case Some(r) => log != [] && log[|log| - 1].revision == r
  }

  /** The revision an accepted write may get. */
  ghost predicate NewRevision<V, W>(log: seq<Entry<V, W>>, revision: nat) {
    log == [] || log[|log| - 1].revision < revision
  }

  lemma AppendIncreasing<V, W>(log: seq<Entry<V, W>>, e: Entry<V, W>)
    requires Increasing(log) && NewRevision(log, e.revision)
    ensures Increasing(log + [e])
  {
    var t := log + [e];
    forall i, j | 0 <= i < j < |t| ensures t[i].revision < t[j].revision {
      if j == |log| && i < |log| - 1 { assert log[i].revision < log[|log| - 1].revision; }
    }
  }

  /** A revision read from an entry can only match while that entry is the newest. */
  lemma MatchIsNewest<V, W>(log: seq<Entry<V, W>>, j: nat)
    requires Increasing(log) && j < |log| && Matches(log, Some(log[j].revision))
    ensures j == |log| - 1
  {
  }
}
