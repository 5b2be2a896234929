/** The six upload slots of the patient page (src/components/diagnosis/UploadSection.tsx
    and the `emotions` list of src/pages/Index.tsx). The uploaded images form
    a JavaScript object, whose keys keep insertion order: here an ordered
    list of slot/file-name pairs. Files are known only by their names. */
module Upload {
  import opened Wrappers

  /** The slot keys in display order. */
  const SlotKeys: seq<string> := ["anger", "disgust", "fear", "happiness", "sadness", "surprise"]

  datatype Image = Image(key: string, fileName: string)

  predicate UniqueKeys(images: seq<Image>) {
    forall i, j :: 0 <= i < j < |images| ==> images[i].key != images[j].key
  }

  function Keys(images: seq<Image>): (ks: seq<string>)
    ensures |ks| == |images|
    ensures forall i :: 0 <= i < |images| ==> ks[i] == images[i].key
  {
    seq(|images|, i requires 0 <= i < |images| => images[i].key)
  }

  /** `uploadedImages[key]`. */
  function Lookup(images: seq<Image>, key: string): (r: Option<string>)
    ensures r.None? <==> forall i :: 0 <= i < |images| ==> images[i].key != key
    ensures r.Some? ==> exists i :: 0 <= i < |images| && images[i] == Image(key, r.value)
    ensures UniqueKeys(images) ==> forall i :: 0 <= i < |images| && images[i].key == key ==> r == Some(images[i].fileName)
  {
    if |images| == 0 then None
    else if images[0].key == key then Some(images[0].fileName)
    else
      assert UniqueKeys(images) ==> UniqueKeys(images[1..]);
      Lookup(images[1..], key)
  }

  /** `{...images, [key]: file}`: an existing key keeps its place and gets
      the new file; a new key goes last. */
  function Put(images: seq<Image>, key: string, fileName: string): (r: seq<Image>)
    ensures (exists i :: 0 <= i < |images| && images[i].key == key) ==>
      Keys(r) == Keys(images) && forall i :: 0 <= i < |images| ==>
        r[i] == if images[i].key == key then Image(key, fileName) else images[i]
    ensures (forall i :: 0 <= i < |images| ==> images[i].key != key) ==> r == images + [Image(key, fileName)]
  {
    if exists i :: 0 <= i < |images| && images[i].key == key then
      seq(|images|, i requires 0 <= i < |images| => if images[i].key == key then Image(key, fileName) else images[i])
    else images + [Image(key, fileName)]
  }

  /** The copy with `key` deleted. */
  function Remove(images: seq<Image>, key: string): (r: seq<Image>)
    ensures |r| <= |images|
    ensures forall i :: 0 <= i < |r| ==> r[i].key != key && r[i] in images
    ensures forall i :: 0 <= i < |images| && images[i].key != key ==> images[i] in r
    decreases |images|
  {
    if |images| == 0 then []
    else if images[0].key == key then Remove(images[1..], key)
    else [images[0]] + Remove(images[1..], key)
  }

  /** The remaining images keep their order: an image appended to the list
      is appended to the result exactly when its key differs. */
  lemma {:induction false} RemoveSnoc(images: seq<Image>, x: Image, key: string)
    ensures Remove(images + [x], key) == Remove(images, key) + (if x.key != key then [x] else [])
    decreases |images|
  {
    if |images| == 0 {
      assert images + [x] == [x];
      assert [x][1..] == [];
    } else {
      assert (images + [x])[1..] == images[1..] + [x];
      RemoveSnoc(images[1..], x, key);
    }
  }

  /** `handleFileUpload`: a chosen file fills the slot, no file empties it.
      Keys stay unique, the slot reads back what was put in it, and every
      other slot is unchanged. */
  function HandleFileUpload(images: seq<Image>, key: string, file: Option<string>): (r: seq<Image>)
    requires UniqueKeys(images)
    ensures UniqueKeys(r)
    ensures Lookup(r, key) == file
    ensures forall other :: other != key ==> Lookup(r, other) == Lookup(images, other)
  {
    match file
    case Some(f) =>
      var r := Put(images, key, f);
      assert forall other :: Lookup(r, other) == if other == key then Some(f) else Lookup(images, other) by {
        forall other
          ensures Lookup(r, other) == if other == key then Some(f) else Lookup(images, other)
        {
          if exists i :: 0 <= i < |images| && images[i].key == other {
            var i :| 0 <= i < |images| && images[i].key == other;
            assert r[i].key == other;
          }
          if other == key {
            assert r[|r| - 1].key == key || exists i :: 0 <= i < |images| && images[i].key == key;
            if forall i :: 0 <= i < |images| ==> images[i].key != key {
              assert r[|images|] == Image(key, f);
            } else {
              var i :| 0 <= i < |images| && images[i].key == key;
              assert r[i] == Image(key, f);
            }
          }
        }
      }
      r
    case None =>
      var r := Remove(images, key);
      RemoveKeepsUnique(images, key);
      assert forall other :: other != key ==> Lookup(r, other) == Lookup(images, other) by {
        forall other | other != key
          ensures Lookup(r, other) == Lookup(images, other)
        {
          if exists i :: 0 <= i < |images| && images[i].key == other {
            var i :| 0 <= i < |images| && images[i].key == other;
            assert images[i] in r;
          }
        }
      }
      r
  }

  lemma {:induction false} RemoveKeepsUnique(images: seq<Image>, key: string)
    requires UniqueKeys(images)
    ensures UniqueKeys(Remove(images, key))
    decreases |images|
  {
    if |images| > 0 {
      assert UniqueKeys(images[1..]);
      RemoveKeepsUnique(images[1..], key);
      var rest := Remove(images[1..], key);
      forall i | 0 <= i < |rest|
        ensures rest[i].key != images[0].key
      {
        assert rest[i] in images[1..];
      }
    }
  }

  /** `Object.keys(uploadedImages).length === 6`. */
  predicate IsReadyToAnalyze(images: seq<Image>) {
    |images| == 6
  }

  /** The files the analysis reads, in insertion order (`Object.values`). */
  function FileNames(images: seq<Image>): (names: seq<string>)
    ensures |names| == |images|
    ensures forall i :: 0 <= i < |images| ==> names[i] == images[i].fileName
  {
    seq(|images|, i requires 0 <= i < |images| => images[i].fileName)
  }

  /** Slots are filled only through the six upload boxes. */
  predicate FromSlots(images: seq<Image>) {
    forall i :: 0 <= i < |images| ==> images[i].key in SlotKeys
  }

  /** The keys of the filled slots. */
  function KeySet(images: seq<Image>): set<string> {
    set i | 0 <= i < |images| :: images[i].key
  }

  /** The six emotion keys are distinct. */
  lemma SlotKeysDistinct()
    ensures |set k | k in SlotKeys| == 6
  {
    assert (set k | k in SlotKeys) == {"anger", "disgust", "fear", "happiness", "sadness", "surprise"};
  }

  /** Six images from the six boxes, with unique keys, fill every box. */
  lemma ReadyFillsEverySlot(images: seq<Image>)
    requires UniqueKeys(images) && FromSlots(images) && IsReadyToAnalyze(images)
    ensures forall k :: k in SlotKeys ==> Lookup(images, k).Some?
  {
    var all := set k | k in SlotKeys;
    SlotKeysDistinct();
    DistinctCardinality(images);
    assert KeySet(images) <= all;
    SubsetSameSize(KeySet(images), all);
    forall k | k in SlotKeys
      ensures Lookup(images, k).Some?
    {
      assert k in KeySet(images);
    }
  }

  /** Unique keys from the six boxes filling every box are six images. */
  lemma EverySlotMeansReady(images: seq<Image>)
    requires UniqueKeys(images) && FromSlots(images)
    requires forall k :: k in SlotKeys ==> Lookup(images, k).Some?
    ensures IsReadyToAnalyze(images)
  {
    var all := set k | k in SlotKeys;
    SlotKeysDistinct();
    DistinctCardinality(images);
    forall k | k in all
      ensures k in KeySet(images)
    {
      var i :| 0 <= i < |images| && images[i] == Image(k, Lookup(images, k).value);
    }
    assert KeySet(images) <= all;
    assert KeySet(images) == all;
  }

  /** With unique keys from the six boxes, the analyse button's test (six
      images) holds exactly when every box is filled. */
  lemma ReadyMeansEverySlot(images: seq<Image>)
    requires UniqueKeys(images) && FromSlots(images)
    ensures IsReadyToAnalyze(images) <==> forall k :: k in SlotKeys ==> Lookup(images, k).Some?
  {
    if IsReadyToAnalyze(images) {
      ReadyFillsEverySlot(images);
    } else if forall k :: k in SlotKeys ==> Lookup(images, k).Some? {
      EverySlotMeansReady(images);
    }
  }

  /** Distinct keys: as many keys as images. */
  lemma {:induction false} DistinctCardinality(images: seq<Image>)
    requires UniqueKeys(images)
    ensures |KeySet(images)| == |images|
    decreases |images|
  {
    if |images| > 0 {
      var init := images[..|images| - 1];
      assert UniqueKeys(init);
      DistinctCardinality(init);
      var last := images[|images| - 1].key;
      assert KeySet(images) == KeySet(init) + {last};
      assert last !in KeySet(init);
    }
  }

  /** A subset as large as its superset is the superset. */
  lemma SubsetSameSize<T>(a: set<T>, b: set<T>)
    requires a <= b && |a| == |b|
    ensures a == b
  {
    if x :| x in b && x !in a {
      assert a <= b - {x};
      SubsetSize(a, b - {x});
    }
  }

  lemma {:induction false} SubsetSize<T>(a: set<T>, b: set<T>)
    requires a <= b
    ensures |a| <= |b|
    decreases |b|
  {
    if a != {} {
      var x :| x in a;
      SubsetSize(a - {x}, b - {x});
    }
  }
}
