/**
 * The decisions of `ClientsController` (Controllers/ClientsController.cs):
 * the `Clients` table of the database context is a map from primary key to
 * record, held in a field and updated in place by the actions.
 */
module ClientsControllerModel {
  import opened ClientModel

  /** What an action answers. `BadRequest` carries the validation messages
      (none for an identifier mismatch); `ConcurrencyError` is the
      `DbUpdateConcurrencyException` that `UpdateClient` rethrows, and
      `DuplicateKey` the store's refusal to insert a key it already holds,
      which `CreateClient` does not catch. */
  datatype ActionResult =
    | Ok(client: Client)
    | NotFound
    | BadRequest(errors: seq<FieldError>)
    | CreatedAt(id: Int32, client: Client)
    | NoContent
    | ConcurrencyError
    | DuplicateKey

  class ClientsController {
    /** `_context.Clients`: the stored records by primary key. */
    var clients: map<Int32, Client>

    /** The table is keyed by `ID`: each record sits under its own identifier. */
    ghost predicate Valid()
      reads this
    {
      forall id :: id in clients ==> clients[id].id == id
    }

    /** Every stored record passes model validation. The actions keep this:
        none of them ever stores an invalid record. */
    ghost predicate StoredRecordsValid()
      reads this
    {
      forall id :: id in clients ==> IsValid(clients[id])
    }

    /** `new ClientsController(context, logger)` over a table keyed by `ID`. */
    constructor (context: map<Int32, Client>)
      requires forall id :: id in context ==> context[id].id == id
      ensures Valid() && clients == context
    {
      clients := context;
    }

    /** `ClientExists(id)`: some stored record has this `ID`; since the table
        is keyed by `ID`, that is the same as the key being present. */
    method ClientExists(id: Int32) returns (found: bool)
      requires Valid()
      ensures found <==> id in clients
    {
      found := exists c :: c in clients.Values && c.id == id;
    }

    /** `GetAllClients`: every stored record exactly once, in the store's order. */
    method GetAllClients() returns (all: seq<Client>)
      requires Valid()
      ensures |all| == |clients|
      ensures forall i :: 0 <= i < |all| ==> all[i].id in clients && clients[all[i].id] == all[i]
      ensures forall i, j :: 0 <= i < j < |all| ==> all[i].id != all[j].id
      ensures forall id :: id in clients ==> clients[id] in all
    {
      all := [];
      var pending := clients.Keys;
      while pending != {}
        invariant pending <= clients.Keys
        invariant |all| + |pending| == |clients.Keys|
        invariant forall i :: 0 <= i < |all| ==> all[i].id in clients && all[i].id !in pending && clients[all[i].id] == all[i]
        invariant forall i, j :: 0 <= i < j < |all| ==> all[i].id != all[j].id
        invariant forall id :: id in clients && id !in pending ==> clients[id] in all
        decreases pending
      {
        var id :| id in pending;
        all := all + [clients[id]];
        pending := pending - {id};
      }
    }

    /** `GetClient(id)`: the record stored under `id`, or `NotFound`. */
    method GetClient(id: Int32) returns (result: ActionResult)
      requires Valid()
      ensures result.NotFound? <==> id !in clients
      ensures result.Ok? || result.NotFound?
      ensures result.Ok? ==> result.client.id == id && clients[id] == result.client
    {
      if id !in clients {
        result := NotFound;
      } else {
        result := Ok(clients[id]);
      }
    }

    /** `CreateClient(client)`: rejects an invalid record, otherwise inserts it
        under its own `ID` and points the caller at `GetClient(client.ID)`. */
    method CreateClient(client: Client) returns (result: ActionResult)
      requires Valid()
      modifies this
      ensures Valid()
      ensures old(StoredRecordsValid()) ==> StoredRecordsValid()
      ensures !IsValid(client) ==> result == BadRequest(Validate(client)) && clients == old(clients)
      ensures IsValid(client) && client.id in old(clients) ==>
                result == DuplicateKey && clients == old(clients)
      ensures IsValid(client) && client.id !in old(clients) ==>
                result == CreatedAt(client.id, client) && clients == old(clients)[client.id := client]
    {
      if !IsValid(client) {
        result := BadRequest(Validate(client));
        return;
      }
      if client.id in clients {
        result := DuplicateKey;
        return;
      }
      clients := clients[client.id := client];
      result := CreatedAt(client.id, client);
    }

    /** `UpdateClient(id, client)`: replaces the whole record stored under `id`.
        Under `[ApiController]` an invalid body is answered with its
        validation messages before the action runs. The commit fails when no
        row has that key, and also when the store reports a conflicting
        concurrent write (`commitConflict`); on failure the key is looked up
        again to tell `NotFound` from a conflict. */
    method UpdateClient(id: Int32, client: Client, commitConflict: bool) returns (result: ActionResult)
      requires Valid()
      modifies this
      ensures Valid()
      ensures old(StoredRecordsValid()) ==> StoredRecordsValid()
      ensures !IsValid(client) ==> result == BadRequest(Validate(client)) && clients == old(clients)
      ensures IsValid(client) && id != client.id ==> result == BadRequest([]) && clients == old(clients)
      ensures IsValid(client) && id == client.id && id in old(clients) && !commitConflict ==>
                result == NoContent && clients == old(clients)[id := client]
      ensures IsValid(client) && id == client.id && id !in old(clients) ==>
                result == NotFound && clients == old(clients)
      ensures IsValid(client) && id == client.id && id in old(clients) && commitConflict ==>
                result == ConcurrencyError && clients == old(clients)
    {
      if !IsValid(client) {
        result := BadRequest(Validate(client));
        return;
      }
      if id != client.id {
        result := BadRequest([]);
        return;
      }
      var committed := id in clients && !commitConflict;
      if committed {
        clients := clients[id := client];
        result := NoContent;
      } else {
        var stillThere := ClientExists(id);
        if !stillThere {
          result := NotFound;
        } else {
          result := ConcurrencyError;
        }
      }
    }

    /** `DeleteClient(id)`: removes the record stored under `id`, or answers
        `NotFound` and leaves the table alone. */
    method DeleteClient(id: Int32) returns (result: ActionResult)
      requires Valid()
      modifies this
      ensures Valid()
      ensures old(StoredRecordsValid()) ==> StoredRecordsValid()
      ensures id !in old(clients) ==> result == NotFound && clients == old(clients)
      ensures id in old(clients) ==> result == NoContent && clients == old(clients) - {id}
    {
      if id !in clients {
        result := NotFound;
        return;
      }
      clients := clients - {id};
      result := NoContent;
    }
  }
}
