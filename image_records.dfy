/** The records the uploader edits and the invariant that ties their order to
    their `priority` field. */
module ImageRecords {

  import opened Splice

  /** One uploaded image as the host form stores it: `{url, title,
      description, priority}`. `priority` is a JavaScript number and the host
      may hand in any value; the editor is meant to keep it equal to the
      1-based position. */
  datatype ImageRecord = ImageRecord(url: string, title: string, description: string, priority: int)

  /** What a record carries apart from its rank; the permutation and order
      properties are stated on these. */
  datatype Payload = Payload(url: string, title: string, description: string)

  function PayloadOf(r: ImageRecord): (p: Payload) {
    Payload(r.url, r.title, r.description)
  }

  /** The payloads of a list, position by position. */
  function Payloads(s: seq<ImageRecord>): (p: seq<Payload>)
    ensures |p| == |s|
    ensures forall i :: 0 <= i < |s| ==> p[i] == PayloadOf(s[i])
  {
    seq(|s|, i requires 0 <= i < |s| => PayloadOf(s[i]))
  }

  /** The list invariant: the record at 0-based position `i` has priority `i + 1`. */
  predicate Numbered(s: seq<ImageRecord>) {
    forall i :: 0 <= i < |s| ==> s[i].priority == i + 1
  }

  /** The set of priorities that occur in a list. */
  function Priorities(s: seq<ImageRecord>): (ps: set<int>) {
    set i | 0 <= i < |s| :: s[i].priority
  }

  /** `list.map((img, idx) => ({...img, priority: idx + 1}))`: every record
      keeps its url, title and description and takes its position as rank. */
  function Renumber(s: seq<ImageRecord>): (r: seq<ImageRecord>)
    ensures |r| == |s|
    ensures Numbered(r)
    ensures Payloads(r) == Payloads(s)
  {
    seq(|s|, i requires 0 <= i < |s| => s[i].(priority := i + 1))
  }

  /** A list that already satisfies the invariant is left alone by renumbering. */
  lemma RenumberNumbered(s: seq<ImageRecord>)
    requires Numbered(s)
    ensures Renumber(s) == s
  {
  }

  /** Under the invariant the priorities are exactly 1..N, without gaps or
      duplicates, and ordering by priority is the list order. */
  lemma NumberedPriorities(s: seq<ImageRecord>)
    requires Numbered(s)
    ensures forall p :: p in Priorities(s) <==> 1 <= p <= |s|
    ensures forall i, j :: 0 <= i < j < |s| ==> s[i].priority < s[j].priority
  {
    forall k | 1 <= k <= |s| ensures k in Priorities(s) {
      assert s[k - 1].priority == k;
    }
  }

  /** Payloads commute with deleting one element. */
  lemma PayloadsRemoveAt(s: seq<ImageRecord>, i: int)
    requires 0 <= i < |s|
    ensures Payloads(RemoveAt(s, i)) == RemoveAt(Payloads(s), i)
  {
  }

  /** Payloads commute with inserting one element. */
  lemma PayloadsInsertAt(s: seq<ImageRecord>, i: int, x: ImageRecord)
    requires 0 <= i <= |s|
    ensures Payloads(InsertAt(s, i, x)) == InsertAt(Payloads(s), i, PayloadOf(x))
  {
  }

  /** Payloads commute with exchanging two elements. */
  lemma PayloadsSwap(s: seq<ImageRecord>, i: int, j: int)
    requires 0 <= i < |s| && 0 <= j < |s|
    ensures Payloads(Swap(s, i, j)) == Swap(Payloads(s), i, j)
  {
  }

  /** Payloads commute with appending. */
  lemma PayloadsAppend(s: seq<ImageRecord>, t: seq<ImageRecord>)
    ensures Payloads(s + t) == Payloads(s) + Payloads(t)
  {
  }
}
