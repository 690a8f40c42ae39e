/**
 * The `webglmap` store module (webglmap.js): the signed-in user's webgl maps as a
 * list of documents. The actions are Firestore round trips and are not
 * part of this model; the mutations and getters are.
 */
module WebglmapStore {
  import opened Wrappers
  import opened Js
  import opened Objects
  import opened Lists

  class WebglmapState {
    var webglmapsByUser: seq<Document>

    /** The initial state: an empty list. */
    constructor ()
      ensures webglmapsByUser == []
    {
      webglmapsByUser := [];
    }

    /** The `mapsByUser` getter. */
    function MapsByUser(): seq<Document>
      reads this
    {
      webglmapsByUser
    }

    /** The `mapById` getter: the first document whose `id` is strictly equal to `id`, or undefined. */
    function MapById(id: Value): (r: Option<Document>)
      reads this, webglmapsByUser
      ensures r.None? <==> forall i | 0 <= i < |webglmapsByUser| :: IdOf(webglmapsByUser[i]) != id
      ensures r.Some? ==> exists i | 0 <= i < |webglmapsByUser| ::
                            r.value == webglmapsByUser[i] && IdOf(webglmapsByUser[i]) == id
                            && forall j | 0 <= j < i :: IdOf(webglmapsByUser[j]) != id
    {
      FindById(webglmapsByUser, id)
    }

    /** `setWebglmapsByUser`: replaces the list wholesale. */
    method SetWebglmapsByUser(webglmaps: seq<Document>)
      modifies this
      ensures webglmapsByUser == webglmaps
    {
      webglmapsByUser := webglmaps;
    }

    /** `addWebglmap`: appends at the end; the earlier documents keep their order. */
    method AddWebglmap(webglmap: Document)
      modifies this
      ensures webglmapsByUser == old(webglmapsByUser) + [webglmap]
    {
      webglmapsByUser := webglmapsByUser + [webglmap];
    }

    /**
     * `updateWebglmap`: `Object.assign(itemToUpdate, dataToUpdate)` on the document
     * itself, so every list holding it sees the change; an undefined target
     * (no document with that id) is a TypeError.
     */
    method UpdateWebglmap(itemToUpdate: Document?, dataToUpdate: Dict<Value>) returns (o: Outcome)
      modifies itemToUpdate
      ensures itemToUpdate == null ==> o == Fail(TypeError)
      ensures itemToUpdate != null ==> o == Pass && itemToUpdate.fields == Assign(old(itemToUpdate.fields), dataToUpdate)
      ensures webglmapsByUser == old(webglmapsByUser)
    {
      if itemToUpdate == null {
        return Fail(TypeError);
      }
      itemToUpdate.fields := Assign(itemToUpdate.fields, dataToUpdate);
      o := Pass;
    }

    /** `deleteWebglmap`: `splice(ids.indexOf(id), 1)`. */
    method DeleteWebglmap(id: Value)
      modifies this
      ensures webglmapsByUser == Splice1(old(webglmapsByUser), IndexOf(Ids(old(webglmapsByUser)), id))
    {
      var index := IndexOf(Ids(webglmapsByUser), id);
      webglmapsByUser := Splice1(webglmapsByUser, index);
    }
  }
}
