/** Result types shared by every module of the model. */
module Wrappers {
  datatype Option<+T> = None | Some(value: T)

  /** The status codes of server_engine/status.hpp. */
  datatype Status =
    | Ok
    | InitializationFailed
    | ConfigurationFailed
    | IoFailed
    | InvalidArgument
    | SemanticConflict
    | NotFound
    | PersistenceFailed
    | ArtifactCorrupt
    | RebuildRequired
    | NotAvailable
    | InvalidState

  /** What a number of calls come to that are made one after another until one fails. */
  function First(calls: seq<Status>): (r: Status)
    ensures r == Ok <==> forall i :: 0 <= i < |calls| ==> calls[i] == Ok
  {
    if calls == [] then Ok else if calls[0] != Ok then calls[0] else First(calls[1..])
  }

  /** And of two. */
  function Then(first: Status, next: Status): Status { if first != Ok then first else next }

  lemma {:induction false} FirstOf(a: seq<Status>, b: seq<Status>)
    ensures First(a + b) == if First(a) != Ok then First(a) else First(b)
  {
    if a == [] {
      assert a + b == b;
    } else {
      assert (a + b)[1..] == a[1..] + b;
      FirstOf(a[1..], b);
    }
  }

  /** The first failure decides, whatever would follow. */
  lemma {:induction false} FirstAt(calls: seq<Status>, i: nat)
    requires i < |calls| && calls[i] != Ok && forall k :: 0 <= k < i ==> calls[k] == Ok
    ensures First(calls) == calls[i]
  {
    if i > 0 { FirstAt(calls[1..], i - 1); }
  }

  const MAX_U32: nat := 0xFFFF_FFFF
  const MAX_SIZE: nat := 0xFFFF_FFFF_FFFF_FFFF
}
