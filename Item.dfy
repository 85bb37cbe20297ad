/** The Item entity: an item offered by a shop, with a main image and a list
    of further images.  Its constructor and its two update operations assign
    fields in place; the image list is only ever appended to. */
module Items {
  import opened Wrappers

  /** Java's int. */
  newtype int32 = x: int | -0x8000_0000 <= x < 0x8000_0000

  /** Java's long. */
  newtype int64 = x: int | -0x8000_0000_0000_0000 <= x < 0x8000_0000_0000_0000

  /** A java.net.URL, by its text. */
  datatype Url = Url(text: string)

  /** The entities an item refers to, by identity.  Their own contents are
      not part of this model. */
  datatype Shop = Shop(id: int64)
  datatype CategoryM = CategoryM(id: int64)
  datatype Wish = Wish(id: int64)
  datatype ChatRoom = ChatRoom(id: int64)
  datatype ItemLocation = ItemLocation(id: int64)
  /** The trade state of an item (trade.type.State), by name. */
  datatype State = State(name: string)

  /** The contents of an item at one moment.  A field that Java leaves null
      is None. */
  datatype ItemState = ItemState(
    id: Option<int64>,
    name: string,
    price: int32,
    comment: string,
    mainImage: Option<Url>,
    subImages: seq<Url>,
    state: Option<State>,
    withDeliveryFee: Option<bool>,
    shop: Option<Shop>,
    categoryMidId: Option<CategoryM>,
    wishList: seq<Wish>,
    itemChatRoom: seq<ChatRoom>,
    itemLocation: Option<ItemLocation>)

  /** The fields that neither update operation touches agree. */
  predicate SameIdentity(s: ItemState, t: ItemState) {
    s.id == t.id && s.state == t.state && s.withDeliveryFee == t.withDeliveryFee && s.shop == t.shop &&
    s.categoryMidId == t.categoryMidId && s.wishList == t.wishList && s.itemChatRoom == t.itemChatRoom &&
    s.itemLocation == t.itemLocation
  }

  /** The item the constructor builds: the arguments in their fields, the
      images in the order given, no id, no state, no category, no location,
      and no wishes or chat rooms. */
  function Constructed(name: string, price: int32, comment: string, mainImage: Option<Url>,
                       subImages: seq<Url>, shop: Option<Shop>, withDeliveryFee: Option<bool>): (t: ItemState)
    ensures t.name == name && t.price == price && t.comment == comment && t.mainImage == mainImage
    ensures t.shop == shop && t.withDeliveryFee == withDeliveryFee
    ensures t.state.None? && t.categoryMidId.None? && t.itemLocation.None?
  {
    ItemState(None, name, price, comment, mainImage, subImages, None, withDeliveryFee, shop, None, [], [], None)
  }

  /** updateSubImage: the images xs are added after the existing ones. */
  function WithSubImages(s: ItemState, xs: seq<Url>): (t: ItemState)
    ensures SameIdentity(s, t)
    ensures t.name == s.name && t.price == s.price && t.comment == s.comment && t.mainImage == s.mainImage
    ensures |t.subImages| == |s.subImages| + |xs|
    ensures t.subImages[..|s.subImages|] == s.subImages && t.subImages[|s.subImages|..] == xs
  {
    s.(subImages := s.subImages + xs)
  }

  /** update: name, price, comment and main image are replaced; the images xs
      are added after the existing ones. */
  function Updated(s: ItemState, name: string, price: int32, comment: string, mainImage: Option<Url>,
                   xs: seq<Url>): (t: ItemState)
    ensures SameIdentity(s, t)
    ensures t.name == name && t.price == price && t.comment == comment && t.mainImage == mainImage
    ensures |t.subImages| == |s.subImages| + |xs|
    ensures t.subImages[..|s.subImages|] == s.subImages && t.subImages[|s.subImages|..] == xs
  {
    s.(name := name, price := price, comment := comment, mainImage := mainImage, subImages := s.subImages + xs)
  }

  class Item {
    var id: Option<int64>
    var name: string
    var price: int32
    var comment: string
    var mainImage: Option<Url>
    var subImages: seq<Url>
    var state: Option<State>
    var withDeliveryFee: Option<bool>
    var shop: Option<Shop>
    var categoryMidId: Option<CategoryM>
    var wishList: seq<Wish>
    var itemChatRoom: seq<ChatRoom>
    var itemLocation: Option<ItemLocation>

    /** The current contents of the object. */
    function Snapshot(): ItemState
      reads this
    {
      ItemState(id, name, price, comment, mainImage, subImages, state, withDeliveryFee, shop,
                categoryMidId, wishList, itemChatRoom, itemLocation)
    }

    /** getId */
    function GetId(): (r: Option<int64>)
      reads this
      ensures r == Snapshot().id
    {
      id
    }

    /** Item(name, price, comment, main_image, sub_images, shop,
        withDeliveryFee).  Every field starts with its Java initial value
        (null, or an empty list); the constructor then assigns id from
        getId(), which still reads null. */
    constructor(name: string, price: int32, comment: string, mainImage: Option<Url>,
                subImages: seq<Url>, shop: Option<Shop>, withDeliveryFee: Option<bool>)
      ensures Snapshot() == Constructed(name, price, comment, mainImage, subImages, shop, withDeliveryFee)
    {
      this.id := None;
      this.name := "";
      this.price := 0;
      this.comment := "";
      this.mainImage := None;
      this.subImages := [];
      this.state := None;
      this.withDeliveryFee := None;
      this.shop := None;
      this.categoryMidId := None;
      this.wishList := [];
      this.itemChatRoom := [];
      this.itemLocation := None;
      new;
      this.id := GetId();
      this.shop := shop;
      this.name := name;
      this.price := price;
      this.comment := comment;
      this.mainImage := mainImage;
      this.subImages := this.subImages + subImages;
      this.withDeliveryFee := withDeliveryFee;
    }

    /** updateSubImage(sub_images) */
    method UpdateSubImage(xs: seq<Url>)
      modifies this
      ensures Snapshot() == WithSubImages(old(Snapshot()), xs)
    {
      subImages := subImages + xs;
    }

    /** update(name, price, comment, main_image, sub_images) */
    method Update(name: string, price: int32, comment: string, mainImage: Option<Url>, xs: seq<Url>)
      modifies this
      ensures Snapshot() == Updated(old(Snapshot()), name, price, comment, mainImage, xs)
    {
      this.name := name;
      this.price := price;
      this.comment := comment;
      this.mainImage := mainImage;
      this.subImages := this.subImages + xs;
    }
  }

  // ---------------------------------------------------------------------------
  // Lemmas

  /** A new item holds exactly the images it was given, in order, and no id. */
  lemma ConstructedImages(name: string, price: int32, comment: string, mainImage: Option<Url>,
                          subImages: seq<Url>, shop: Option<Shop>, withDeliveryFee: Option<bool>)
    ensures var s := Constructed(name, price, comment, mainImage, subImages, shop, withDeliveryFee);
      s.subImages == subImages && s.id.None? && s.wishList == [] && s.itemChatRoom == []
  {
  }

  /** Adding no images changes nothing. */
  lemma WithNoSubImages(s: ItemState)
    ensures WithSubImages(s, []) == s
  {
    assert s.subImages + [] == s.subImages;
  }

  /** Adding images in two calls is adding them all in one. */
  lemma WithSubImagesTwice(s: ItemState, xs: seq<Url>, ys: seq<Url>)
    ensures WithSubImages(WithSubImages(s, xs), ys) == WithSubImages(s, xs + ys)
  {
    assert s.subImages + xs + ys == s.subImages + (xs + ys);
  }

  /** update is the four assignments followed by updateSubImage. */
  lemma UpdatedThenImages(s: ItemState, name: string, price: int32, comment: string, mainImage: Option<Url>,
                          xs: seq<Url>)
    ensures Updated(s, name, price, comment, mainImage, xs) ==
      WithSubImages(s.(name := name, price := price, comment := comment, mainImage := mainImage), xs)
  {
  }

  /** update with no images leaves the image list as it was, and updating
      twice with the same values and no images is updating once. */
  lemma UpdatedWithoutImages(s: ItemState, name: string, price: int32, comment: string, mainImage: Option<Url>)
    ensures Updated(s, name, price, comment, mainImage, []).subImages == s.subImages
    ensures var t := Updated(s, name, price, comment, mainImage, []);
      Updated(t, name, price, comment, mainImage, []) == t
  {
    assert s.subImages + [] == s.subImages;
  }

  /** update never loses an image: whatever the arguments, the images before
      the call are the first images after it. */
  lemma UpdatedKeepsImages(s: ItemState, name: string, price: int32, comment: string, mainImage: Option<Url>,
                           xs: seq<Url>, i: nat)
    requires i < |s.subImages|
    ensures i < |Updated(s, name, price, comment, mainImage, xs).subImages|
    ensures Updated(s, name, price, comment, mainImage, xs).subImages[i] == s.subImages[i]
  {
    var t := Updated(s, name, price, comment, mainImage, xs);
    assert t.subImages[..|s.subImages|][i] == t.subImages[i];
  }
}
