/** The exceptions the "Is Swarming Enabled" data source can raise, as abstract error kinds. */
module Errors {

  datatype Error =
    /** OnInit: the init arguments, or their DMS connection, are null (ArgumentNullException). */
    | InitArgsOrDmsNull
    /** LoadAgents: the DMS connection was never set (ArgumentNullException). */
    | DmsNotSet
    /** LoadAgents: sending the DataMiner-info request threw (wrapped in DataMinerSecurityException). */
    | RequestFailed
    /** LoadAgents: the reply to the request is null or holds no message. */
    | ResponseNullOrEmpty
    /** LoadAgents: the reply holds no DataMiner-info response. */
    | NoDataMinerInfo
    /** GetNextPage: the agents disagree; `enabled` of the `total` agents have swarming enabled (DataMinerException). */
    | MixedConfig(enabled: nat, total: nat)
}
