/**
 * Callers of the controller model: the controller test of
 * ClientsControllerTests.cs:16-48 over its three seeded records
 * (lines 84-92), and the request sequences the controller's contracts
 * promise to support.
 */
module ControllerScenarios {
  import opened Wrappers
  import opened ClientModel
  import opened ClientsControllerModel

  /** `GetTestClients()`, keyed by `ID`; `MainAddress` is left null there. */
  function TestClients(): (table: map<Int32, Client>)
    ensures table.Keys == {1, 2, 3}
    ensures forall id :: id in table ==> table[id].id == id
  {
    map[
      1 := Client(1, Some("John Doe"), Some("1234567890"), Some("john@example.com"), None),
      2 := Client(2, Some("Jane Doe"), Some("0987654321"), Some("jane@example.com"), None),
      3 := Client(3, Some("James Bond"), Some("1122334455"), Some("james@mi6.uk"), None)]
  }

  /** `Index_ReturnsViewWithClientsList`: listing the seeded table yields three records. */
  method ListingSeededTableYieldsThree() returns (count: nat)
    ensures count == 3
  {
    var controller := new ClientsController(TestClients());
    var all := controller.GetAllClients();
    assert |TestClients().Keys| == 3;
    count := |all|;
  }

  /** A successful create followed by a get of the same `ID` returns the record. */
  method CreateThenGet(controller: ClientsController, client: Client)
    returns (created: ActionResult, fetched: ActionResult)
    requires controller.Valid() && IsValid(client) && client.id !in controller.clients
    modifies controller
    ensures created == CreatedAt(client.id, client)
    ensures fetched == Ok(client)
  {
    created := controller.CreateClient(client);
    fetched := controller.GetClient(created.id);
  }

  /** Deleting a stored record makes a later get of it answer `NotFound`,
      and a second delete of it `NotFound` too. */
  method DeleteThenGet(controller: ClientsController, id: Int32)
    returns (deleted: ActionResult, fetched: ActionResult, deletedAgain: ActionResult)
    requires controller.Valid() && id in controller.clients
    modifies controller
    ensures deleted == NoContent && fetched == NotFound && deletedAgain == NotFound
    ensures controller.clients == old(controller.clients) - {id}
  {
    deleted := controller.DeleteClient(id);
    fetched := controller.GetClient(id);
    deletedAgain := controller.DeleteClient(id);
  }

  /** An update whose path and body identifiers disagree changes nothing,
      whatever the store would have done with the commit. */
  method MismatchedUpdateChangesNothing(controller: ClientsController, id: Int32, client: Client, commitConflict: bool)
    returns (result: ActionResult)
    requires controller.Valid() && id != client.id
    modifies controller
    ensures result == if IsValid(client) then BadRequest([]) else BadRequest(Validate(client))
    ensures controller.clients == old(controller.clients)
  {
    result := controller.UpdateClient(id, client, commitConflict);
  }

  /** An update of a stored record with a valid body and no conflicting
      write is seen by a later get, and other records are untouched. */
  method UpdateThenGet(controller: ClientsController, client: Client, other: Int32)
    returns (updated: ActionResult, fetched: ActionResult, fetchedOther: ActionResult)
    requires controller.Valid() && IsValid(client) && client.id in controller.clients && other != client.id
    modifies controller
    ensures updated == NoContent && fetched == Ok(client)
    ensures fetchedOther == if other in old(controller.clients) then Ok(old(controller.clients)[other]) else NotFound
  {
    updated := controller.UpdateClient(client.id, client, false);
    fetched := controller.GetClient(client.id);
    fetchedOther := controller.GetClient(other);
  }
}
