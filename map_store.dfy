/**
 * The `map` store module (map.js): the signed-in user's maps as a
 * list of documents. The actions are Firestore round trips and are not
 * part of this model; the mutations and getters are.
 */
module MapStore {
  import opened Wrappers
  import opened Js
  import opened Objects
  import opened Lists

  class MapState {
    var mapsByUser: seq<Document>

    /** The initial state: an empty list. */
    constructor ()
      ensures mapsByUser == []
    {
      mapsByUser := [];
    }

    /** The `mapsByUser` getter. */
    function MapsByUser(): seq<Document>
      reads this
    {
      mapsByUser
    }

    /** The `mapById` getter: the first document whose `id` is strictly equal to `id`, or undefined. */
    function MapById(id: Value): (r: Option<Document>)
      reads this, mapsByUser
      ensures r.None? <==> forall i | 0 <= i < |mapsByUser| :: IdOf(mapsByUser[i]) != id
      ensures r.Some? ==> exists i | 0 <= i < |mapsByUser| ::
                            r.value == mapsByUser[i] && IdOf(mapsByUser[i]) == id
                            && forall j | 0 <= j < i :: IdOf(mapsByUser[j]) != id
    {
      FindById(mapsByUser, id)
    }

    /** `setMapsByUser`: replaces the list wholesale. */
    method SetMapsByUser(maps: seq<Document>)
      modifies this
      ensures mapsByUser == maps
    {
      mapsByUser := maps;
    }

    /** `addMap`: appends at the end; the earlier documents keep their order. */
    method AddMap(newMap: Document)
      modifies this
      ensures mapsByUser == old(mapsByUser) + [newMap]
    {
      mapsByUser := mapsByUser + [newMap];
    }

    /**
     * `updateMap`: `Object.assign(itemToUpdate, dataToUpdate)` on the document
     * itself, so every list holding it sees the change; an undefined target
     * (no document with that id) is a TypeError.
     */
    method UpdateMap(itemToUpdate: Document?, dataToUpdate: Dict<Value>) returns (o: Outcome)
      modifies itemToUpdate
      ensures itemToUpdate == null ==> o == Fail(TypeError)
      ensures itemToUpdate != null ==> o == Pass && itemToUpdate.fields == Assign(old(itemToUpdate.fields), dataToUpdate)
      ensures mapsByUser == old(mapsByUser)
    {
      if itemToUpdate == null {
        return Fail(TypeError);
      }
      itemToUpdate.fields := Assign(itemToUpdate.fields, dataToUpdate);
      o := Pass;
    }

    /** `deleteMap`: `splice(ids.indexOf(id), 1)`. */
    method DeleteMap(id: Value)
      modifies this
      ensures mapsByUser == Splice1(old(mapsByUser), IndexOf(Ids(old(mapsByUser)), id))
    {
      var index := IndexOf(Ids(mapsByUser), id);
      mapsByUser := Splice1(mapsByUser, index);
    }
  }
}
