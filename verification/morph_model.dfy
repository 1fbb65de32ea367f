/** The states and the context record of a morph. */
module MorphModel {
  import opened Wrappers

  datatype MorphState = Idle | Detecting | Assigning | Rerouting | Monitoring | Terminating | Error | Rollback

  // Request ids are only ever compared.
  datatype RequestId = RequestId(text: string)

  datatype Context = Context(
    requestId: RequestId, attackerIp: string, state: MorphState, session: Option<string>,
    ruleId: Option<string>, rollbackToken: Option<string>, expiresAt: Option<int>)

  predicate Terminal(s: MorphState) { s == Idle || s == Error }
}
