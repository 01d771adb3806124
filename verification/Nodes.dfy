/** The HTTP handlers of one node, as they run on its own store. What the other nodes answer comes in
    as the sequence that arrives on the channel; the other steps of the cluster are in the protocols. */
module Nodes {
  import opened Options
  import opened Replica
  import AckLoop
  import ReadMerge

  datatype Response = Failed(code: int) | Created(key: string, version: int) | Ok(entry: Entry) | Replicated

  /** A decoded `/set` body. */
  datatype SetBody = SetBody(key: string, value: string)

  /** What a leader answers after `k` replies, `local` being its own entry. */
  ghost predicate AnswersAfter(local: Option<Entry>, replies: seq<Option<Entry>>, k: nat, r: int,
    response: Response)
    requires k <= |replies|
  {
    && ReadMerge.TakesQuorum(replies, k, r - 1, |replies|)
    && (response == Failed(404) || response.Ok?)
    && (response == Failed(404) <==> local.None? && ReadMerge.Positives(replies, k) == {})
    && (response.Ok? ==>
          ReadMerge.FirstNewest(if local.Some? then local.value else Entry("", 0), replies, k, response.entry))
  }

  /** A node of the leader-follower cluster. */
  class LeaderFollowerNode {
    const store: KVStore
    const role: string
    const followers: nat
    const w: int
    const r: int

    constructor (store: KVStore, role: string, followers: nat, w: int, r: int)
      ensures this.store == store && this.role == role && this.followers == followers
      ensures this.w == w && this.r == r
    {
      this.store, this.role, this.followers, this.w, this.r := store, role, followers, w, r;
    }

    /** `/set`: 405 for anything but a POST, 400 for a POST without a readable body and key, 403 at a follower, and
        none of these writes anything. Every other request is written and stays in the store whether the quorum is
        met or not; the response is 201 exactly when W - 1 followers acknowledged, and 503 otherwise. */
    method HandleSet(isPost: bool, body: Option<SetBody>, replies: seq<bool>) returns (response: Response)
      requires |replies| == followers
      modifies store
      ensures response == Failed(405) <==> !isPost
      ensures response == Failed(400) <==> isPost && (body.None? || body.value.key == "")
      ensures response == Failed(403) <==> isPost && body.Some? && body.value.key != "" && role == "follower"
      ensures response in {Failed(405), Failed(400), Failed(403)} ==> store.data == old(store.data)
      ensures response !in {Failed(405), Failed(400), Failed(403)} ==>
                && body.Some?
                && var version := NextVersion(old(store.data), body.value.key);
                && store.data == old(store.data)[body.value.key := Entry(body.value.value, version)]
                && response == if w <= 1 || |AckLoop.Positives(replies)| >= w - 1
                               then Created(body.value.key, version) else Failed(503)
    {
      if !isPost {
        return Failed(405);
      }
      if body.None? || body.value.key == "" {
        return Failed(400);
      }
      if role == "follower" {
        return Failed(403);
      }
      var version := store.SetLocal(body.value.key, body.value.value);
      var acksNeeded := w - 1;
      if acksNeeded > 0 {
        var acks, _ := AckLoop.AwaitQuorum(replies, acksNeeded);
        if acks < acksNeeded {
          return Failed(503);
        }
      }
      response := Created(body.value.key, version);
    }

    /** `/get`: 400 without a key. A leader with R above 1 takes replies until R - 1 of them are entries or all are
        in, and answers with the first of the newest among them and its own entry; any other node, and a leader with
        R of 1, answers from its own store. 404 exactly when nothing was found. */
    method HandleGet(key: string, replies: seq<Option<Entry>>) returns (response: Response)
      requires |replies| == followers
      ensures response == Failed(400) <==> key == ""
      ensures key != "" && (role != "leader" || r <= 1) ==>
                response == if key in store.data then Ok(store.data[key]) else Failed(404)
      ensures key != "" && role == "leader" && r > 1 ==>
                exists k: nat :: k <= followers && AnswersAfter(Lookup(store.data, key), replies, k, r, response)
    {
      if key == "" {
        return Failed(400);
      }
      var best, found := store.Get(key);
      if role == "leader" {
        var readsNeeded := r - 1;
        if readsNeeded > 0 {
          ghost var local := Lookup(store.data, key);
          var consumed;
          best, found, consumed := ReadMerge.MergeReplies(best, found, replies, readsNeeded);
          response := if found then Ok(best) else Failed(404);
          assert AnswersAfter(local, replies, consumed, r, response);
          return;
        }
      }
      response := if found then Ok(best) else Failed(404);
    }

    /** `/replicate` answers 200 whether or not the store took the entry. */
    method HandleReplicate(body: Option<Message>) returns (response: Response)
      modifies store
      ensures body.None? ==> response == Failed(400) && store.data == old(store.data)
      ensures body.Some? ==>
                response == Replicated && store.data == Applied(old(store.data), body.value.key, body.value.entry)
    {
      if body.None? {
        return Failed(400);
      }
      store.Set(body.value.key, body.value.entry.value, body.value.entry.version);
      response := Replicated;
    }
  }

  /** A node of the leaderless cluster: every node coordinates the writes it receives. */
  class LeaderlessNode {
    const store: KVStore
    const peers: nat
    const n: int

    constructor (store: KVStore, peers: nat, n: int)
      ensures this.store == store && this.peers == peers && this.n == n
    {
      this.store, this.peers, this.n := store, peers, n;
    }

    /** `/set` waits for every peer; 201 exactly when at least N - 1 of them acknowledged. */
    method HandleSet(isPost: bool, body: Option<SetBody>, replies: seq<bool>) returns (response: Response)
      requires |replies| == peers
      modifies store
      ensures !isPost ==> response == Failed(405) && store.data == old(store.data)
      ensures isPost && (body.None? || body.value.key == "") ==>
                response == Failed(400) && store.data == old(store.data)
      ensures isPost && body.Some? && body.value.key != "" ==>
                var version := NextVersion(old(store.data), body.value.key);
                && store.data == old(store.data)[body.value.key := Entry(body.value.value, version)]
                && response == if |AckLoop.Positives(replies)| >= n - 1
                               then Created(body.value.key, version) else Failed(503)
    {
      if !isPost {
        return Failed(405);
      }
      if body.None? || body.value.key == "" {
        return Failed(400);
      }
      var version := store.SetLocal(body.value.key, body.value.value);
      var acks := AckLoop.AwaitAll(replies);
      var needed := n - 1;
      if acks < needed {
        return Failed(503);
      }
      response := Created(body.value.key, version);
    }

    /** `/get` answers from the node's own store. */
    method HandleGet(key: string) returns (response: Response)
      ensures response == if key == "" then Failed(400)
                          else if key in store.data then Ok(store.data[key]) else Failed(404)
    {
      if key == "" {
        return Failed(400);
      }
      var e, ok := store.Get(key);
      response := if ok then Ok(e) else Failed(404);
    }
  }
}
