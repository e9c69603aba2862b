/** What the pool and the policy need to know about an instance, and what its two operations do to that. */
module InstanceView {
  import opened Types

  /**
   doc: the last document loaded successfully, under version; armed: a per-evaluation deadline is
   live instead of the far-future one; atCheckpoint: the heap pointer is at the post-data checkpoint;
   intact: the data region below that checkpoint still holds doc.
   */
  datatype View = View(doc: Document, version: nat, poisoned: bool, armed: bool, atCheckpoint: bool, intact: bool)

  /** Fit to sit in the idle queue. */
  predicate Pristine(v: View) {
    !v.poisoned && !v.armed && v.atCheckpoint && v.intact
  }

  /** Rejected: refused before guest execution began. Failed: anything after. */
  datatype Outcome = Answer(json: seq<byte>) | Rejected | Failed

  /** A failed evaluation poisons; even then the document and its region are as they were. */
  predicate EvaluationEffect(v: View, v': View, outcome: Outcome) {
    if outcome.Failed? then v' == v.(poisoned := true, armed := v'.armed, atCheckpoint := v'.atCheckpoint)
    else v' == v
  }

  predicate ReloadEffect(v: View, v': View, data: Document, version: nat, ok: bool) {
    if ok then v' == v.(doc := data, version := version) else v'.poisoned && v'.version == v.version
  }

  /** A newly built instance. */
  function BuiltWith(doc: Document, version: nat): View {
    View(doc, version, false, false, true, true)
  }

  /** While a document is being loaded: heap pointer anywhere, neither document whole in the region. */
  function InReload(v: View): View {
    v.(atCheckpoint := false, intact := false)
  }

  /** After a load: the new document whole, the heap at its end, the version tag moved. */
  function Reloaded(v: View, doc: Document, version: nat): View {
    v.(doc := doc, version := version, atCheckpoint := true, intact := true)
  }

  /** While the guest runs: deadline live if evaluations have one, heap pointer anywhere. */
  function InGuest(v: View, timeouts: bool): View {
    v.(armed := timeouts, atCheckpoint := false)
  }

  /** After the answer was read: heap reset, deadline disarmed. */
  function Answered(v: View): View {
    v.(armed := false, atCheckpoint := true)
  }
}
