/**
 * The `POST /generate-leads` endpoint: validate the request body, default the
 * optional requirements, run the orchestrator and turn its outcome into a JSON
 * response with a status code.
 */
module App {
  import opened Wrappers
  import opened Json

  /** The arguments the endpoint passes to the orchestrator. */
  datatype Call = Call(industry: Json, country: Json, requirements: Json)

  /** What the orchestrator does: return the saved filename and the table, or raise with a message. */
  datatype Outcome = Leads(filename: string, table: string) | Raised(message: string)

  datatype Response = Response(status: nat, body: map<string, Json>)

  /** The response, together with the call made to the orchestrator (None when it was not invoked). */
  datatype Dispatch = Dispatch(call: Option<Call>, response: Response)

  const MissingFieldsMessage: string := "Missing required fields. Please provide industry and country."

  /** The body names both required fields; their values are not inspected. */
  predicate HasRequiredFields(data: Option<map<string, Json>>) {
    data.Some? && "industry" in data.value && "country" in data.value
  }

  /**
   * Handles one request whose body parsed as JSON. `data` is that JSON object,
   * or None when the body is the JSON `null`; `findPotentialClients` stands for
   * the orchestrator.
   */
  function GenerateLeads(data: Option<map<string, Json>>, findPotentialClients: Call -> Outcome): (d: Dispatch)
    // Validation is by presence only, and a rejected request never reaches the orchestrator.
    ensures d.response.status == 400 <==> !HasRequiredFields(data)
    ensures d.call.None? <==> !HasRequiredFields(data)
    ensures d.response.status == 400 ==> d.response.body == map["error" := JString(MissingFieldsMessage)]
    // An accepted request forwards industry and country unchanged; requirements default to ''.
    ensures d.call.Some? ==>
              && d.call.value.industry == data.value["industry"]
              && d.call.value.country == data.value["country"]
              && d.call.value.requirements
                 == (if "requirements" in data.value then data.value["requirements"] else JString(""))
    // Success copies filename and table; any exception becomes a 500 carrying its message.
    ensures d.call.Some? ==>
              match findPotentialClients(d.call.value)
              case Leads(filename, table) =>
                d.response == Response(200, map["success" := JBool(true), "filename" := JString(filename), "table" := JString(table)])
              case Raised(message) =>
                d.response == Response(500, map["error" := JString(message), "success" := JBool(false)])
  {
    if data.None? || data.value == map[] || "industry" !in data.value || "country" !in data.value then
      Dispatch(None, Response(400, map["error" := JString(MissingFieldsMessage)]))
    else
      var fields := data.value;
      var call := Call(fields["industry"], fields["country"],
                       if "requirements" in fields then fields["requirements"] else JString(""));
      var response :=
        match findPotentialClients(call)
        case Leads(filename, table) =>
          Response(200, map["success" := JBool(true), "filename" := JString(filename), "table" := JString(table)])
        case Raised(message) =>
          Response(500, map["error" := JString(message), "success" := JBool(false)]);
      Dispatch(Some(call), response)
  }

  /** Every response has one of the three statuses, and carries "success" exactly when it is not a 400. */
  lemma StatusCodes(data: Option<map<string, Json>>, findPotentialClients: Call -> Outcome)
    ensures GenerateLeads(data, findPotentialClients).response.status in {200, 400, 500}
    ensures var r := GenerateLeads(data, findPotentialClients).response;
            ("success" in r.body <==> r.status != 400) && ("error" in r.body <==> r.status != 200)
  {
    var d := GenerateLeads(data, findPotentialClients);
    if d.call.Some? {
      match findPotentialClients(d.call.value)
      case Leads(_, _) =>
      case Raised(_) =>
    }
  }

  /** A request that is rejected gets the same response whatever the orchestrator would have done. */
  lemma RejectionIgnoresOrchestrator(data: Option<map<string, Json>>, f: Call -> Outcome, g: Call -> Outcome)
    requires !HasRequiredFields(data)
    ensures GenerateLeads(data, f) == GenerateLeads(data, g)
  {
  }

  /** An empty-string industry and an empty-string country pass validation and are forwarded as they are. */
  lemma EmptyFieldsAccepted(fields: map<string, Json>, findPotentialClients: Call -> Outcome)
    requires "industry" in fields && fields["industry"] == JString("")
    requires "country" in fields && fields["country"] == JString("")
    ensures GenerateLeads(Some(fields), findPotentialClients).call.Some?
    ensures GenerateLeads(Some(fields), findPotentialClients).call.value.industry == JString("")
    ensures GenerateLeads(Some(fields), findPotentialClients).call.value.country == JString("")
  {
  }
}
