/** An in-memory stand-in for Firestore and Firebase Storage: one map per
    collection from document path to stored document, and one from storage
    path to uploaded file. Document ids are generated fresh. */
module Store {
  import opened MapConverter
  import opened PinConverter
  import opened PolaroidTypes

  /** The path of a document in a per-map subcollection
      (`maps/{parent}/pins/{id}`, `maps/{parent}/polaroids/{id}`). */
  datatype DocPath = DocPath(parent: string, id: string)

  /** Why a call failed: the document to update does not exist, the service
      could not be reached, or the SDK refused the query's arguments. */
  datatype StoreError = NotFound | Unavailable | InvalidArgument

  class Firestore {
    var maps: map<string, MapData>
    var pins: map<DocPath, PinData>
    var polaroids: map<DocPath, PolaroidData>
    var blobs: map<string, FileRef>

    constructor ()
      ensures maps == map[] && pins == map[] && polaroids == map[] && blobs == map[]
    {
      maps, pins, polaroids, blobs := map[], map[], map[], map[];
    }

    /** The ids in use in the pins subcollection of `mapId`. */
    function PinIds(mapId: string): set<string>
      reads this
    {
      set p | p in pins.Keys && p.parent == mapId :: p.id
    }

    /** The ids in use in the polaroids subcollection of `mapId`. */
    function PolaroidIds(mapId: string): set<string>
      reads this
    {
      set p | p in polaroids.Keys && p.parent == mapId :: p.id
    }
  }

  /** A non-empty id not in `taken`: one character longer than every id in
      use, which stands in for Firestore's random document ids. */
  method FreshId(taken: set<string>) returns (id: string)
    ensures id != "" && id !in taken
  {
    var rest := taken;
    var longest: nat := 0;
    while rest != {}
      invariant rest <= taken
      invariant forall k :: k in taken - rest ==> |k| <= longest
      decreases |rest|
    {
      var k :| k in rest;
      if |k| > longest {
        longest := |k|;
      }
      rest := rest - {k};
    }
    id := seq(longest + 1, _ => 'x');
    assert |id| > longest;
  }
}
