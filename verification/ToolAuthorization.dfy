/** `authorizeAgentToolInvocation`: the guards in front of a tool call. A digest is any function
    with no collisions. */
module ToolAuthorization {
  import opened Text
  import opened Prelude
  import opened ToolArguments

  datatype Capability = Read | SafeWrite | SensitiveWrite

  datatype Policy = Policy(toolId: Text, requiredCapability: Capability, requiredPermission: Text,
                           allowedDepartmentIds: seq<Text>)

  datatype Confirmation<D> = Confirmation(companyId: Text, serviceSessionId: Text, toolId: Text, fingerprint: D,
                                          confirmedByUserId: Text, confirmedAt: int, expiresAt: int)

  datatype Context<D> = Context(companyId: Text, serviceSessionCompanyId: Text, serviceSessionId: Text,
                                currentDepartmentId: Text, assignedToolIds: seq<Text>,
                                grantedCapabilities: seq<Capability>, serverGrantedPermissions: seq<Text>,
                                arguments: Argument, confirmation: Option<Confirmation<D>>, now: int)

  datatype Authorized<D> = Authorized(toolId: Text, fingerprint: D, confirmedByUserId: Option<Text>)

  ghost predicate NoCollisions<D(!new)>(digest: Text -> D) {
    forall s, t :: digest(s) == digest(t) ==> s == t
  }

  function Fingerprint<D>(digest: Text -> D, arguments: Argument): Result<D> {
    match StableJson(arguments) case None => Err(ValidationError) case Some(t) => Ok(digest(t))
  }

  /** The guards before the arguments are looked at, in the order of the source. */
  function Guards<D>(policy: Policy, context: Context<D>): Result<Text> {
    var toolId := Trim(policy.toolId);
    if toolId == [] || Trim(policy.requiredPermission) == [] then Err(ValidationError)
    else if context.companyId != context.serviceSessionCompanyId then Err(Forbidden)
    else if toolId !in context.assignedToolIds then Err(Forbidden)
    else if policy.requiredCapability !in context.grantedCapabilities then Err(Forbidden)
    else if policy.requiredPermission !in context.serverGrantedPermissions then Err(Forbidden)
    else if policy.allowedDepartmentIds != [] && context.currentDepartmentId !in policy.allowedDepartmentIds then
      Err(Forbidden)
    else Ok(toolId)
  }

  predicate ValidConfirmation<D(==)>(c: Confirmation<D>, context: Context<D>, toolId: Text, fingerprint: D) {
    && c.companyId == context.companyId
    && c.serviceSessionId == context.serviceSessionId
    && c.toolId == toolId
    && c.fingerprint == fingerprint
    && Trim(c.confirmedByUserId) != []
    && c.confirmedAt <= context.now
    && c.expiresAt > context.now
  }

  function Authorize<D(==)>(digest: Text -> D, policy: Policy, context: Context<D>): Result<Authorized<D>> {
    match Guards(policy, context)
    case Err(e) => Err(e)
    case Ok(toolId) =>
      match Fingerprint(digest, context.arguments)
      case Err(e) => Err(e)
      case Ok(fingerprint) =>
        if policy.requiredCapability != SensitiveWrite then Ok(Authorized(toolId, fingerprint, None))
        else match context.confirmation
          case None => Err(Forbidden)
          case Some(c) =>
            if ValidConfirmation(c, context, toolId, fingerprint)
            then Ok(Authorized(toolId, fingerprint, Some(c.confirmedByUserId)))
            else Err(Forbidden)
  }

  /** A confirmation that a person gave for the arguments `shown` authorizes a sensitive write exactly when
      the guards pass, the rest of the confirmation matches, and the call's arguments are those that were
      shown, up to member order; the authorization names that person. Any other tool needs the guards
      alone, and its authorization names nobody. */
  lemma ConfirmedMeansShown<D(!new)>(digest: Text -> D, policy: Policy, context: Context<D>, shown: Argument)
    requires NoCollisions(digest)
    requires WellFormed(shown) && IsJson(shown) && WellFormed(context.arguments) && IsJson(context.arguments)
    requires context.confirmation.Some? ==>
               Ok(context.confirmation.value.fingerprint) == Fingerprint(digest, shown)
    ensures var c, result := context.confirmation, Authorize(digest, policy, context);
            if policy.requiredCapability == SensitiveWrite then
              && (result.Ok? <==>
                    && Guards(policy, context).Ok? && c.Some?
                    && ValidConfirmation(c.value, context, Trim(policy.toolId), c.value.fingerprint)
                    && Same(shown, context.arguments))
              && (result.Ok? ==> result.value.confirmedByUserId == Some(c.value.confirmedByUserId))
            else
              && (result.Ok? <==> Guards(policy, context).Ok?)
              && (result.Ok? ==> result.value.confirmedByUserId.None?)
  {
    hide StableJson, Same, WellFormed, IsJson;
    TextsMatchExactly(shown, context.arguments);
  }
}
