/** The "Is Swarming Enabled" GQI data source: after OnInit has stored the platform connection,
    each GetNextPage asks every agent for its DataMiner info and answers with a single boolean. */
module SwarmingSource {
  import opened Wrappers
  import opened Errors
  import opened GqiPage
  import opened AgentReplies
  import opened Consensus

  /** Opaque handle to the platform connection (GQIDMS). */
  datatype Dms = Dms(id: nat)

  /** Opaque handle to the query engine's logger. */
  datatype Logger = Logger(id: nat)

  /** What the query engine passes to OnInit; a null field is `None`. */
  datatype InitArgs = InitArgs(dms: Option<Dms>, logger: Option<Logger>)

  /** What sending the DataMiner-info request to the platform gave: it threw, or it returned an
      array of messages, possibly null (`None`). */
  datatype Reply = Threw | Returned(messages: Option<seq<Message>>)

  /** True when the reply is a non-null, non-empty array. */
  predicate NonEmptyReply(reply: Reply)
  {
    reply.Returned? && reply.messages.Some? && reply.messages.value != []
  }

  class IsSwarmingEnabled {
    var dms: Option<Dms>
    var logger: Option<Logger>

    /** A fresh data source has no connection and no logger yet. */
    constructor ()
      ensures dms == None && logger == None
    {
      dms := None;
      logger := None;
    }

    /** Stores the connection and the logger, after rejecting null arguments or a null connection;
        on rejection nothing is stored. */
    method OnInit(args: Option<InitArgs>) returns (r: Outcome<Error>)
      modifies this
      ensures args.None? || args.value.dms.None? ==>
                r == Fail(InitArgsOrDmsNull) && dms == old(dms) && logger == old(logger)
      ensures args.Some? && args.value.dms.Some? ==>
                r == Pass && dms == args.value.dms && logger == args.value.logger
    {
      if args.None? || args.value.dms.None? {
        return Fail(InitArgsOrDmsNull);
      }
      dms := args.value.dms;
      logger := args.value.logger;
      return Pass;
    }

    /** The swarming flags of the agents, from the platform's reply to the DataMiner-info request.
        The request is only sent once a connection is stored, so `reply` matters only then. */
    function LoadAgents(reply: Reply): (r: Result<seq<bool>, Error>)
      reads this
      ensures dms.None? ==> r == Failure(DmsNotSet)
      ensures dms.Some? && reply.Threw? ==> r == Failure(RequestFailed)
      ensures dms.Some? && reply.Returned? && !NonEmptyReply(reply) ==> r == Failure(ResponseNullOrEmpty)
      ensures dms.Some? && NonEmptyReply(reply) ==>
                (r == Failure(NoDataMinerInfo) <==>
                 forall i :: 0 <= i < |reply.messages.value| ==> reply.messages.value[i].Other?)
      ensures r.Success? <==>
                dms.Some? && NonEmptyReply(reply) &&
                exists i :: 0 <= i < |reply.messages.value| && reply.messages.value[i].DataMinerInfo?
      ensures r.Success? ==> r.value == InfoFlags(reply.messages.value) && r.value != []
    {
      if dms.None? then Failure(DmsNotSet)
      else match reply
        case Threw => Failure(RequestFailed)
        case Returned(messages) =>
          if messages.None? || messages.value == [] then Failure(ResponseNullOrEmpty)
          else
            var flags := InfoFlags(messages.value);
            if flags == [] then Failure(NoDataMinerInfo) else Success(flags)
    }

    /** The page answering "is swarming enabled": `true` when every agent's DataMiner-info response
        reports it enabled, `false` when every one reports it disabled, and otherwise the
        mixed-configuration error with the enabled count over the number of responses.
        A failure of LoadAgents is passed on unchanged. */
    function GetNextPage(reply: Reply): (r: Result<Page, Error>)
      reads this
      ensures LoadAgents(reply).Failure? ==> r == Failure(LoadAgents(reply).error)
      ensures r == Success(BoolToPage(true)) <==>
                LoadAgents(reply).Success? && AllEnabled(InfoFlags(reply.messages.value))
      ensures r == Success(BoolToPage(false)) <==>
                LoadAgents(reply).Success? && AllDisabled(InfoFlags(reply.messages.value))
      ensures r.Success? ==> LoadAgents(reply).Success? && PageValue(r.value).Some?
      ensures LoadAgents(reply).Success? && r.Failure? ==>
                var flags := InfoFlags(reply.messages.value);
                r.error == MixedConfig(CountEnabled(flags), |flags|) &&
                0 < r.error.enabled < r.error.total
    {
      match LoadAgents(reply)
      case Failure(e) => Failure(e)
      case Success(flags) =>
        ExactlyOneOutcome(flags);
        PageRoundTrip(true, BoolToPage(true));
        PageRoundTrip(false, BoolToPage(false));
        Decide(flags)
    }
  }

  /** A data source whose connection was never stored rejects every page request, whatever the
      platform would have replied. */
  lemma UninitialisedSourceFails(src: IsSwarmingEnabled, reply: Reply)
    requires src.dms.None?
    ensures src.GetNextPage(reply) == Failure(DmsNotSet)
  {
  }

  /** Over a non-empty array of messages, the page holds `v` exactly when at least one message is a
      DataMiner-info response and every DataMiner-info response reports swarming as `v`. */
  lemma PageByMessages(src: IsSwarmingEnabled, messages: seq<Message>, v: bool)
    requires src.dms.Some? && messages != []
    ensures src.GetNextPage(Returned(Some(messages))) == Success(BoolToPage(v)) <==>
              (exists i :: 0 <= i < |messages| && messages[i].DataMinerInfo?) &&
              (forall i :: 0 <= i < |messages| && messages[i].DataMinerInfo? ==> messages[i].isSwarmingEnabled == v)
  {
    var reply := Returned(Some(messages));
    var flags := InfoFlags(messages);
    InfoFlagsUniform(messages, v);
    PageRoundTrip(true, BoolToPage(false));
    assert src.LoadAgents(reply).Success? <==> exists i :: 0 <= i < |messages| && messages[i].DataMinerInfo?;
    if v {
      assert AllEnabled(flags) <==> forall k :: 0 <= k < |flags| ==> flags[k] == v;
    } else {
      assert AllDisabled(flags) <==> forall k :: 0 <= k < |flags| ==> flags[k] == v;
    }
  }
}
