/** The earlier skeleton of the memory engine (`src/memory/milvus_database.py`): a per-user client
    whose SQL helpers are public and work as in the engine, whose four high-level operations are
    still stubs that do nothing and return `None`, and a registry whose clients all share one
    embedding model. The skeleton's vector-store helpers are not part of this model. */
module MemorySkeleton {
  import opened Optional
  import opened Store
  import opened Seqs
  import MilvusDatabase

  class UserClient {
    const userId: string
    /** The embedding model, shared by every client of a registry. */
    const embed: string -> seq<real>

    /** The `user_dialogues` table. */
    var dialogues: seq<DialogueRecord>
    /** The `summary` table. */
    var summaries: seq<SummaryRecord>
    /** The short-term deque, oldest item first; the skeleton never fills it. */
    var shortTermMemory: seq<string>
    /** The client's Milvus connection alias is registered. */
    var milvusConnected: bool

    ghost predicate Valid()
      reads this`dialogues, this`summaries, this`shortTermMemory
    {
      && (forall i :: 0 <= i < |dialogues| ==> dialogues[i].id == i + 1)
      && (forall i :: 0 <= i < |summaries| ==> summaries[i].id == i + 1)
      && |shortTermMemory| <= MilvusDatabase.ShortTermCapacity
    }

    /** `UserClient(user_id, ...)` followed by `create_user_databases()`, on fresh databases. */
    constructor (userId: string, embed: string -> seq<real>)
      ensures Valid()
      ensures this.userId == userId && this.embed == embed
      ensures dialogues == [] && summaries == [] && shortTermMemory == [] && milvusConnected
    {
      this.userId := userId;
      this.embed := embed;
      dialogues := [];
      summaries := [];
      shortTermMemory := [];
      milvusConnected := true;
    }

    /** `close`: the client's Milvus alias is removed. */
    method Close()
      modifies this`milvusConnected
      ensures !milvusConnected
    {
      milvusConnected := false;
    }

    /** `insert_raw_dialogue_to_sql`: appends one row stamped `now` and returns its id, the next
        row number. */
    method InsertRawDialogueToSql(role: string, text: string, now: int) returns (id: int)
      requires Valid()
      modifies this`dialogues
      ensures Valid()
      ensures id == |old(dialogues)| + 1
      ensures dialogues == old(dialogues) + [DialogueRecord(id, now, role, text)]
    {
      id := |dialogues| + 1;
      dialogues := dialogues + [DialogueRecord(id, now, role, text)];
    }

    /** `retrieve_latest_dialogues_from_sql`: the `count` newest dialogues, newest first; no
        dialogue left out is newer than one returned. */
    method RetrieveLatestDialoguesFromSql(count: int) returns (rows: seq<DialogueRecord>)
      ensures rows == LatestDialogues(dialogues, count)
      ensures count >= 0 ==> |rows| == Min(count, |dialogues|)
      ensures count < 0 ==> |rows| == |dialogues|
      ensures SubBag(rows, dialogues)
      ensures forall i, j :: 0 <= i < j < |rows| ==> rows[i].time >= rows[j].time
      ensures forall x, j :: x in dialogues && x !in rows && 0 <= j < |rows| ==> x.time <= rows[j].time
    {
      rows := LatestDialogues(dialogues, count);
      LatestDialoguesSpec(dialogues, count);
    }

    /** `retrieve_summary_from_sql`: the `count` latest summaries by `end_time`, latest first,
        among those ending at or before `maxEndTime` when it is given. */
    method RetrieveSummaryFromSql(maxEndTime: Option<int>, count: int) returns (rows: seq<SummaryRecord>)
      ensures rows == RetrieveSummaries(summaries, maxEndTime, count)
      ensures count >= 0 ==> |rows| == Min(count, |Qualifying(summaries, maxEndTime)|)
      ensures count < 0 ==> |rows| == |Qualifying(summaries, maxEndTime)|
      ensures SubBag(rows, summaries)
      ensures forall i, j :: 0 <= i < j < |rows| ==> rows[i].endTime >= rows[j].endTime
      ensures maxEndTime.Some? ==> forall x :: x in rows ==> x.endTime <= maxEndTime.value
      ensures forall x, j :: x in Qualifying(summaries, maxEndTime) && x !in rows && 0 <= j < |rows| ==>
        x.endTime <= rows[j].endTime
    {
      rows := RetrieveSummaries(summaries, maxEndTime, count);
      RetrieveSummariesSpec(summaries, maxEndTime, count);
    }

    /** `insert_summary_to_sql`: appends one summary row and returns its id, the next row number.
        Unlike the engine, the skeleton accepts any time range. */
    method InsertSummaryToSql(startTime: int, endTime: int, summaryText: string) returns (id: int)
      requires Valid()
      modifies this`summaries
      ensures Valid()
      ensures id == |old(summaries)| + 1
      ensures summaries == old(summaries) + [SummaryRecord(id, startTime, endTime, summaryText)]
    {
      id := |summaries| + 1;
      summaries := summaries + [SummaryRecord(id, startTime, endTime, summaryText)];
    }

    /** `insert_record` is still a stub: it stores nothing. */
    method InsertRecord(record: map<string, string>)
      ensures unchanged(this)
    {
    }

    /** `summarize_memory` is still a stub: it summarizes nothing. */
    method SummarizeMemory()
      ensures unchanged(this)
    {
    }

    /** `query_raw_memory` is still a stub: it returns `None` whatever it is asked. */
    method QueryRawMemory(q: MilvusDatabase.QueryData, topK: int) returns (r: Option<seq<MilvusDatabase.Retrieved>>)
      ensures r.None?
    {
      r := None;
    }

    /** `query_summary_memory` is still a stub: it returns `None` whatever it is asked. */
    method QuerySummaryMemory(q: MilvusDatabase.QueryData, topK: int) returns (r: Option<seq<MilvusDatabase.Retrieved>>)
      ensures r.None?
    {
      r := None;
    }
  }

  class MemoryModule {
    /** The one embedding model every client of this registry is given. */
    const embed: string -> seq<real>
    var userClients: map<string, UserClient>

    ghost predicate Valid()
      reads this, userClients.Values
    {
      forall u :: u in userClients ==> userClients[u].userId == u && userClients[u].embed == embed
    }

    constructor (embed: string -> seq<real>)
      ensures Valid() && this.embed == embed && userClients == map[]
    {
      this.embed := embed;
      userClients := map[];
    }

    /** `start_user_client_instance`: the registered client when there is one; otherwise a new
        client on fresh databases sharing the registry's embedding model. */
    method StartUserClientInstance(userId: string) returns (client: UserClient)
      requires Valid()
      modifies this
      ensures Valid()
      ensures client.userId == userId && client.embed == embed
      ensures old(userId in userClients) ==> client == old(userClients[userId]) && userClients == old(userClients)
      ensures old(userId !in userClients) ==>
        && fresh(client) && userClients == old(userClients)[userId := client]
        && client.dialogues == [] && client.summaries == []
    {
      if userId in userClients {
        return userClients[userId];
      }
      client := new UserClient(userId, embed);
      userClients := userClients[userId := client];
    }

    /** `close_user_client_instance`: closes and unregisters the client of `userId`; nothing
        happens for an unknown id. */
    method CloseUserClientInstance(userId: string)
      modifies this, if userId in userClients then {userClients[userId]} else {}
      ensures old(Valid()) ==> Valid()
      ensures userClients == old(userClients) - {userId}
      ensures userId in old(userClients) ==> !old(userClients[userId]).milvusConnected
    {
      if userId in userClients {
        var client := userClients[userId];
        client.Close();
        userClients := userClients - {userId};
      }
    }

    /** `get_user_client`. */
    function GetUserClient(userId: string): (c: Option<UserClient>)
      reads this
      ensures c.Some? <==> userId in userClients
      ensures c.Some? ==> c.value == userClients[userId]
    {
      if userId in userClients then Some(userClients[userId]) else None
    }
  }
}
