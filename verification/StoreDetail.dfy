/** The store-detail response: its JSON encoding, and a decoder that accepts camelCase and snake_case keys. */
module StoreDetail {

  newtype Int32 = x: int | -0x8000_0000 <= x < 0x8000_0000

  datatype Json =
    | JNull
    | JBool(flag: bool)
    | JInt(n: int)
    | JReal(x: real)
    | JString(s: string)
    | JArray(items: seq<Json>)
    | JObject(fields: map<string, Json>)

  /** `TypeError` is the exception of a conversion that the JSON value does not allow. */
  datatype Decoded<+T> = Good(value: T) | TypeError {
    predicate IsFailure() {
      TypeError?
    }

    function PropagateFailure<U>(): Decoded<U>
      requires TypeError?
    {
      TypeError
    }

    function Extract(): T
      requires Good?
    {
      value
    }
  }

  datatype StoreData = StoreData(
    storeId: Int32, storeName: string, storeAddress: string, operatingHours: string, deliveryFees: string,
    isOpen: bool, imageUrl: string, minOrderAmount: Int32, rating: real, reviewCount: Int32,
    deliveryTimeRange: string, pickupTime: string, brandName: string, category: string,
    phoneNumber: string, representativeName: string, businessNumber: string)

  datatype MenuData = MenuData(
    menuId: Int32, storeId: Int32, menuName: string, basePrice: Int32, isSoldOut: bool, description: string,
    imageUrl: string, menuCategory: string, isPopular: bool, optionGroups: Json, reviewContent: string)

  datatype Review = Review(
    reviewId: Int32, orderId: string, userId: string, storeId: Int32, menuId: Int32, menuName: string,
    rating: Int32, content: string, imageUrl: string, ownerReply: string, createdAt: string)

  datatype Response = Response(
    status: Int32, storeData: StoreData, menuList: seq<MenuData>, reviewList: seq<Review>, storeAddress: string)

  // ---------------------------------------------------------------- encoding

  function Number(n: Int32): Json {
    JInt(n as int)
  }

  function StoreJson(d: StoreData): map<string, Json> {
    map["storeId" := Number(d.storeId), "storeName" := JString(d.storeName),
        "storeAddress" := JString(d.storeAddress), "operatingHours" := JString(d.operatingHours),
        "deliveryFees" := JString(d.deliveryFees), "isOpen" := JBool(d.isOpen),
        "imageUrl" := JString(d.imageUrl), "minOrderAmount" := Number(d.minOrderAmount),
        "rating" := JReal(d.rating), "reviewCount" := Number(d.reviewCount),
        "deliveryTimeRange" := JString(d.deliveryTimeRange), "pickupTime" := JString(d.pickupTime),
        "brandName" := JString(d.brandName), "category" := JString(d.category),
        "phoneNumber" := JString(d.phoneNumber), "representativeName" := JString(d.representativeName),
        "businessNumber" := JString(d.businessNumber)]
  }

  function MenuJson(d: MenuData): map<string, Json> {
    map["menuId" := Number(d.menuId), "storeId" := Number(d.storeId), "menuName" := JString(d.menuName),
        "basePrice" := Number(d.basePrice), "isSoldOut" := JBool(d.isSoldOut),
        "description" := JString(d.description), "imageUrl" := JString(d.imageUrl),
        "menuCategory" := JString(d.menuCategory), "isPopular" := JBool(d.isPopular),
        "optionGroups" := d.optionGroups, "reviewContent" := JString(d.reviewContent)]
  }

  function ReviewJson(d: Review): map<string, Json> {
    map["reviewId" := Number(d.reviewId), "orderId" := JString(d.orderId), "userId" := JString(d.userId),
        "storeId" := Number(d.storeId), "menuId" := Number(d.menuId), "menuName" := JString(d.menuName),
        "rating" := Number(d.rating), "content" := JString(d.content), "imageUrl" := JString(d.imageUrl),
        "ownerReply" := JString(d.ownerReply), "createdAt" := JString(d.createdAt)]
  }

  function ResponseJson(d: Response): map<string, Json> {
    map["status" := Number(d.status), "storeData" := JObject(StoreJson(d.storeData)),
        "menuList" := JArray(seq(|d.menuList|, i requires 0 <= i < |d.menuList| => JObject(MenuJson(d.menuList[i])))),
        "reviewList" := JArray(seq(|d.reviewList|,
                                   i requires 0 <= i < |d.reviewList| => JObject(ReviewJson(d.reviewList[i])))),
        "storeAddress" := JString(d.storeAddress)]
  }

  // ---------------------------------------------------------------- decoding

  /** Conversion to `int32_t` as the JSON library does it: numbers wrap, reals lose their fraction, booleans count. */
  function AsInt(j: Json): Decoded<Int32> {
    match j
    case JInt(n) => Good(Wrapped(n))
    case JReal(x) => Good(Wrapped(if x < 0.0 then -(-x).Floor else x.Floor))
    case JBool(b) => Good(if b then 1 else 0)
    case _ => TypeError
  }

  function Wrapped(n: int): Int32 {
    ((n + 0x8000_0000) % 0x1_0000_0000 - 0x8000_0000) as Int32
  }

  /** Conversion to `double` takes numbers only. */
  function AsReal(j: Json): Decoded<real> {
    match j
    case JInt(n) => Good(n as real)
    case JReal(x) => Good(x)
    case _ => TypeError
  }

  function AsString(j: Json): Decoded<string> {
    if j.JString? then Good(j.s) else TypeError
  }

  function AsBool(j: Json): Decoded<bool> {
    if j.JBool? then Good(j.flag) else TypeError
  }

  function AsJson(j: Json): Decoded<Json> {
    Good(j)
  }

  /** `j.value(key, fallback)`. */
  function ValueOr<T>(o: map<string, Json>, key: string, get: Json -> Decoded<T>, fallback: T): Decoded<T> {
    if key in o then get(o[key]) else Good(fallback)
  }

  /** `j.value(camel, j.value(snake, fallback))`: the inner value is converted even when it is not used. */
  function Either<T>(o: map<string, Json>, camel: string, snake: string, get: Json -> Decoded<T>, fallback: T)
    : Decoded<T>
  {
    var inner :- ValueOr(o, snake, get, fallback);
    ValueOr(o, camel, get, inner)
  }

  /** The category is not read: it keeps the value it had before. */
  function StoreFrom(j: Json, before: StoreData): Decoded<StoreData> {
    if !j.JObject? then TypeError
    else
      var o := j.fields;
      var storeId :- Either(o, "storeId", "store_id", AsInt, 0);
      var storeName :- Either(o, "storeName", "store_name", AsString, "");
      var storeAddress :- Either(o, "storeAddress", "store_address", AsString, "");
      var operatingHours :- Either(o, "operatingHours", "operating_hours", AsString, "");
      var deliveryFees :- Either(o, "deliveryFees", "delivery_fees", AsString, "");
      var isOpen :- Either(o, "isOpen", "is_open", AsBool, false);
      var imageUrl :- Either(o, "imageUrl", "image_url", AsString, "");
      var minOrderAmount :- Either(o, "minOrderAmount", "min_order_amount", AsInt, 0);
      var rating :- ValueOr(o, "rating", AsReal, 0.0);
      var reviewCount :- Either(o, "reviewCount", "review_count", AsInt, 0);
      var deliveryTimeRange :- Either(o, "deliveryTimeRange", "delivery_time_range", AsString, "");
      var pickupTime :- Either(o, "pickupTime", "pickup_time", AsString, "");
      var brandName :- Either(o, "brandName", "brand_name", AsString, "정보 없음");
      var phoneNumber :- Either(o, "phoneNumber", "phone_number", AsString, "정보 없음");
      var representativeName :- Either(o, "representativeName", "representative_name", AsString, "정보 없음");
      var businessNumber :- Either(o, "businessNumber", "business_number", AsString, "정보 없음");
      Good(StoreData(storeId, storeName, storeAddress, operatingHours, deliveryFees, isOpen, imageUrl, minOrderAmount,
                     rating, reviewCount, deliveryTimeRange, pickupTime, brandName, before.category, phoneNumber,
                     representativeName, businessNumber))
  }

  function MenuFrom(j: Json): Decoded<MenuData> {
    if !j.JObject? then TypeError
    else
      var o := j.fields;
      var menuId :- Either(o, "menuId", "menu_id", AsInt, 0);
      var storeId :- Either(o, "storeId", "store_id", AsInt, 0);
      var menuName :- Either(o, "menuName", "menu_name", AsString, "");
      var basePrice :- Either(o, "basePrice", "base_price", AsInt, 0);
      var isSoldOut :- Either(o, "isSoldOut", "is_sold_out", AsBool, false);
      var description :- ValueOr(o, "description", AsString, "");
      var imageUrl :- Either(o, "imageUrl", "image_url", AsString, "");
      var menuCategory :- Either(o, "menuCategory", "menu_category", AsString, "기본 메뉴");
      var isPopular :- Either(o, "isPopular", "is_popular", AsBool, false);
      var optionGroups :- Either(o, "optionGroups", "option_groups", AsJson, JArray([]));
      var reviewContent :- Either(o, "reviewContent", "review_content", AsString, "");
      Good(MenuData(menuId, storeId, menuName, basePrice, isSoldOut, description, imageUrl, menuCategory, isPopular,
                    optionGroups, reviewContent))
  }

  function ReviewFrom(j: Json): Decoded<Review> {
    if !j.JObject? then TypeError
    else
      var o := j.fields;
      var reviewId :- Either(o, "reviewId", "review_id", AsInt, 0);
      var orderId :- Either(o, "orderId", "order_id", AsString, "");
      var userId :- Either(o, "userId", "user_id", AsString, "");
      var storeId :- Either(o, "storeId", "store_id", AsInt, 0);
      var menuId :- Either(o, "menuId", "menu_id", AsInt, 0);
      var menuName :- Either(o, "menuName", "menu_name", AsString, "");
      var rating :- ValueOr(o, "rating", AsInt, 0);
      var content :- ValueOr(o, "content", AsString, "");
      var imageUrl :- Either(o, "imageUrl", "image_url", AsString, "");
      var ownerReply :- Either(o, "ownerReply", "owner_reply", AsString, "");
      var createdAt :- Either(o, "createdAt", "created_at", AsString, "");
      Good(Review(reviewId, orderId, userId, storeId, menuId, menuName, rating, content, imageUrl, ownerReply,
                  createdAt))
  }

  function Each<T>(items: seq<Json>, get: Json -> Decoded<T>): Decoded<seq<T>> {
    if items == [] then Good([])
    else
      var first :- get(items[0]);
      var rest :- Each(items[1..], get);
      Good([first] + rest)
  }

  function ListFrom<T>(o: map<string, Json>, key: string, get: Json -> Decoded<T>, before: seq<T>): Decoded<seq<T>> {
    if key !in o then Good(before)
    else if !o[key].JArray? then TypeError
    else Each(o[key].items, get)
  }

  function ResponseFrom(j: Json, before: Response): Decoded<Response> {
    if !j.JObject? then TypeError
    else
      var o := j.fields;
      var status :- ValueOr(o, "status", AsInt, 0);
      var storeData :- if "storeData" in o then StoreFrom(o["storeData"], before.storeData) else Good(before.storeData);
      var menuList :- ListFrom(o, "menuList", MenuFrom, before.menuList);
      var reviewList :- ListFrom(o, "reviewList", ReviewFrom, before.reviewList);
      var storeAddress :- Either(o, "storeAddress", "store_address", AsString, "");
      Good(Response(status, storeData, menuList, reviewList, storeAddress))
  }

  // ---------------------------------------------------------------- spellings

  /** The snake_case form of a key, for the keys the decoders accept under both names. */
  const STORE_NAMES: map<string, string> :=
    map["storeId" := "store_id", "storeName" := "store_name", "storeAddress" := "store_address",
        "operatingHours" := "operating_hours", "deliveryFees" := "delivery_fees", "isOpen" := "is_open",
        "imageUrl" := "image_url", "minOrderAmount" := "min_order_amount", "reviewCount" := "review_count",
        "deliveryTimeRange" := "delivery_time_range", "pickupTime" := "pickup_time", "brandName" := "brand_name",
        "phoneNumber" := "phone_number", "representativeName" := "representative_name",
        "businessNumber" := "business_number"]

  const MENU_NAMES: map<string, string> :=
    map["menuId" := "menu_id", "storeId" := "store_id", "menuName" := "menu_name", "basePrice" := "base_price",
        "isSoldOut" := "is_sold_out", "imageUrl" := "image_url", "menuCategory" := "menu_category",
        "isPopular" := "is_popular", "optionGroups" := "option_groups", "reviewContent" := "review_content"]

  const REVIEW_NAMES: map<string, string> :=
    map["reviewId" := "review_id", "orderId" := "order_id", "userId" := "user_id", "storeId" := "store_id",
        "menuId" := "menu_id", "menuName" := "menu_name", "imageUrl" := "image_url",
        "ownerReply" := "owner_reply", "createdAt" := "created_at"]

  /** One field of `e` is in `o` under its own key or, if that key has one, under its snake_case form only. */
  predicate KeptAt(o: map<string, Json>, k: string, v: Json, names: map<string, string>) {
    if k in o then o[k] == v && (k in names ==> names[k] !in o)
    else k in names && names[k] in o && o[names[k]] == v
  }

  /** `o` is `e` with any of the renamable keys renamed, and possibly with keys that mean nothing to the decoder. */
  ghost predicate Spells(o: map<string, Json>, e: map<string, Json>, names: map<string, string>) {
    forall k | k in e :: KeptAt(o, k, e[k], names)
  }

  lemma IntReads(o: map<string, Json>, e: map<string, Json>, names: map<string, string>, k: string, v: Int32)
    requires Spells(o, e, names) && k in names && k in e && e[k] == Number(v)
    ensures forall fallback :: Either(o, k, names[k], AsInt, fallback) == Good(v)
  {
    assert KeptAt(o, k, e[k], names);
    assert Wrapped(v as int) == v;
  }

  lemma StringReads(o: map<string, Json>, e: map<string, Json>, names: map<string, string>, k: string, v: string)
    requires Spells(o, e, names) && k in names && k in e && e[k] == JString(v)
    ensures forall fallback :: Either(o, k, names[k], AsString, fallback) == Good(v)
  {
    assert KeptAt(o, k, e[k], names);
  }

  lemma BoolReads(o: map<string, Json>, e: map<string, Json>, names: map<string, string>, k: string, v: bool)
    requires Spells(o, e, names) && k in names && k in e && e[k] == JBool(v)
    ensures forall fallback :: Either(o, k, names[k], AsBool, fallback) == Good(v)
  {
    assert KeptAt(o, k, e[k], names);
  }

  lemma JsonReads(o: map<string, Json>, e: map<string, Json>, names: map<string, string>, k: string, v: Json)
    requires Spells(o, e, names) && k in names && k in e && e[k] == v
    ensures forall fallback :: Either(o, k, names[k], AsJson, fallback) == Good(v)
  {
    assert KeptAt(o, k, e[k], names);
  }

  lemma StoreFields1(o: map<string, Json>, d: StoreData)
    requires Spells(o, StoreJson(d), STORE_NAMES)
    ensures Either(o, "storeId", "store_id", AsInt, 0) == Good(d.storeId)
    ensures Either(o, "storeName", "store_name", AsString, "") == Good(d.storeName)
    ensures Either(o, "storeAddress", "store_address", AsString, "") == Good(d.storeAddress)
    ensures Either(o, "operatingHours", "operating_hours", AsString, "") == Good(d.operatingHours)
    ensures Either(o, "deliveryFees", "delivery_fees", AsString, "") == Good(d.deliveryFees)
    ensures Either(o, "isOpen", "is_open", AsBool, false) == Good(d.isOpen)
    ensures Either(o, "imageUrl", "image_url", AsString, "") == Good(d.imageUrl)
    ensures Either(o, "minOrderAmount", "min_order_amount", AsInt, 0) == Good(d.minOrderAmount)
  {
    hide Either, KeptAt;
    IntReads(o, StoreJson(d), STORE_NAMES, "storeId", d.storeId);
    StringReads(o, StoreJson(d), STORE_NAMES, "storeName", d.storeName);
    StringReads(o, StoreJson(d), STORE_NAMES, "storeAddress", d.storeAddress);
    StringReads(o, StoreJson(d), STORE_NAMES, "operatingHours", d.operatingHours);
    StringReads(o, StoreJson(d), STORE_NAMES, "deliveryFees", d.deliveryFees);
    BoolReads(o, StoreJson(d), STORE_NAMES, "isOpen", d.isOpen);
    StringReads(o, StoreJson(d), STORE_NAMES, "imageUrl", d.imageUrl);
    IntReads(o, StoreJson(d), STORE_NAMES, "minOrderAmount", d.minOrderAmount);
  }

  lemma StoreFields2(o: map<string, Json>, d: StoreData)
    requires Spells(o, StoreJson(d), STORE_NAMES)
    ensures Either(o, "reviewCount", "review_count", AsInt, 0) == Good(d.reviewCount)
    ensures Either(o, "deliveryTimeRange", "delivery_time_range", AsString, "") == Good(d.deliveryTimeRange)
    ensures Either(o, "pickupTime", "pickup_time", AsString, "") == Good(d.pickupTime)
    ensures Either(o, "brandName", "brand_name", AsString, "정보 없음") == Good(d.brandName)
    ensures Either(o, "phoneNumber", "phone_number", AsString, "정보 없음") == Good(d.phoneNumber)
    ensures Either(o, "representativeName", "representative_name", AsString, "정보 없음")
         == Good(d.representativeName)
    ensures Either(o, "businessNumber", "business_number", AsString, "정보 없음") == Good(d.businessNumber)
  {
    hide Either, KeptAt;
    IntReads(o, StoreJson(d), STORE_NAMES, "reviewCount", d.reviewCount);
    StringReads(o, StoreJson(d), STORE_NAMES, "deliveryTimeRange", d.deliveryTimeRange);
    StringReads(o, StoreJson(d), STORE_NAMES, "pickupTime", d.pickupTime);
    StringReads(o, StoreJson(d), STORE_NAMES, "brandName", d.brandName);
    StringReads(o, StoreJson(d), STORE_NAMES, "phoneNumber", d.phoneNumber);
    StringReads(o, StoreJson(d), STORE_NAMES, "representativeName", d.representativeName);
    StringReads(o, StoreJson(d), STORE_NAMES, "businessNumber", d.businessNumber);
  }

  /** Every field of the store but its category comes back, under any spelling. */
  lemma StoreReads(o: map<string, Json>, d: StoreData, before: StoreData)
    requires Spells(o, StoreJson(d), STORE_NAMES)
    ensures StoreFrom(JObject(o), before) == Good(d.(category := before.category))
  {
    hide Either, ValueOr, KeptAt;
    PlainReads(o, StoreJson(d), STORE_NAMES, "rating", AsReal, 0.0);
    StoreFields1(o, d);
    StoreFields2(o, d);
  }

  /** A key without a snake_case form is there under its own name. */
  lemma PlainReads<T>(o: map<string, Json>, e: map<string, Json>, names: map<string, string>, k: string,
                      get: Json -> Decoded<T>, fallback: T)
    requires Spells(o, e, names) && k !in names && k in e
    ensures ValueOr(o, k, get, fallback) == get(e[k])
  {
    assert KeptAt(o, k, e[k], names);
  }

  lemma MenuFields1(o: map<string, Json>, d: MenuData)
    requires Spells(o, MenuJson(d), MENU_NAMES)
    ensures Either(o, "menuId", "menu_id", AsInt, 0) == Good(d.menuId)
    ensures Either(o, "storeId", "store_id", AsInt, 0) == Good(d.storeId)
    ensures Either(o, "menuName", "menu_name", AsString, "") == Good(d.menuName)
    ensures Either(o, "basePrice", "base_price", AsInt, 0) == Good(d.basePrice)
    ensures Either(o, "isSoldOut", "is_sold_out", AsBool, false) == Good(d.isSoldOut)
  {
    hide Either, KeptAt;
    IntReads(o, MenuJson(d), MENU_NAMES, "menuId", d.menuId);
    IntReads(o, MenuJson(d), MENU_NAMES, "storeId", d.storeId);
    StringReads(o, MenuJson(d), MENU_NAMES, "menuName", d.menuName);
    IntReads(o, MenuJson(d), MENU_NAMES, "basePrice", d.basePrice);
    BoolReads(o, MenuJson(d), MENU_NAMES, "isSoldOut", d.isSoldOut);
  }

  lemma MenuFields2(o: map<string, Json>, d: MenuData)
    requires Spells(o, MenuJson(d), MENU_NAMES)
    ensures Either(o, "imageUrl", "image_url", AsString, "") == Good(d.imageUrl)
    ensures Either(o, "menuCategory", "menu_category", AsString, "기본 메뉴") == Good(d.menuCategory)
    ensures Either(o, "isPopular", "is_popular", AsBool, false) == Good(d.isPopular)
    ensures Either(o, "optionGroups", "option_groups", AsJson, JArray([])) == Good(d.optionGroups)
    ensures Either(o, "reviewContent", "review_content", AsString, "") == Good(d.reviewContent)
  {
    hide Either, KeptAt;
    StringReads(o, MenuJson(d), MENU_NAMES, "imageUrl", d.imageUrl);
    StringReads(o, MenuJson(d), MENU_NAMES, "menuCategory", d.menuCategory);
    BoolReads(o, MenuJson(d), MENU_NAMES, "isPopular", d.isPopular);
    JsonReads(o, MenuJson(d), MENU_NAMES, "optionGroups", d.optionGroups);
    StringReads(o, MenuJson(d), MENU_NAMES, "reviewContent", d.reviewContent);
  }

  lemma MenuReads(o: map<string, Json>, d: MenuData)
    requires Spells(o, MenuJson(d), MENU_NAMES)
    ensures MenuFrom(JObject(o)) == Good(d)
  {
    hide Either, ValueOr, KeptAt;
    PlainReads(o, MenuJson(d), MENU_NAMES, "description", AsString, "");
    MenuFields1(o, d);
    MenuFields2(o, d);
  }

  lemma ReviewFields1(o: map<string, Json>, d: Review)
    requires Spells(o, ReviewJson(d), REVIEW_NAMES)
    ensures Either(o, "reviewId", "review_id", AsInt, 0) == Good(d.reviewId)
    ensures Either(o, "orderId", "order_id", AsString, "") == Good(d.orderId)
    ensures Either(o, "userId", "user_id", AsString, "") == Good(d.userId)
    ensures Either(o, "storeId", "store_id", AsInt, 0) == Good(d.storeId)
    ensures Either(o, "menuId", "menu_id", AsInt, 0) == Good(d.menuId)
  {
    hide Either, KeptAt;
    IntReads(o, ReviewJson(d), REVIEW_NAMES, "reviewId", d.reviewId);
    StringReads(o, ReviewJson(d), REVIEW_NAMES, "orderId", d.orderId);
    StringReads(o, ReviewJson(d), REVIEW_NAMES, "userId", d.userId);
    IntReads(o, ReviewJson(d), REVIEW_NAMES, "storeId", d.storeId);
    IntReads(o, ReviewJson(d), REVIEW_NAMES, "menuId", d.menuId);
  }

  lemma ReviewFields2(o: map<string, Json>, d: Review)
    requires Spells(o, ReviewJson(d), REVIEW_NAMES)
    ensures Either(o, "menuName", "menu_name", AsString, "") == Good(d.menuName)
    ensures Either(o, "imageUrl", "image_url", AsString, "") == Good(d.imageUrl)
    ensures Either(o, "ownerReply", "owner_reply", AsString, "") == Good(d.ownerReply)
    ensures Either(o, "createdAt", "created_at", AsString, "") == Good(d.createdAt)
  {
    hide Either, KeptAt;
    StringReads(o, ReviewJson(d), REVIEW_NAMES, "menuName", d.menuName);
    StringReads(o, ReviewJson(d), REVIEW_NAMES, "imageUrl", d.imageUrl);
    StringReads(o, ReviewJson(d), REVIEW_NAMES, "ownerReply", d.ownerReply);
    StringReads(o, ReviewJson(d), REVIEW_NAMES, "createdAt", d.createdAt);
  }

  lemma ReviewReads(o: map<string, Json>, d: Review)
    requires Spells(o, ReviewJson(d), REVIEW_NAMES)
    ensures ReviewFrom(JObject(o)) == Good(d)
  {
    hide Either, ValueOr, KeptAt;
    PlainReads(o, ReviewJson(d), REVIEW_NAMES, "rating", AsInt, 0);
    PlainReads(o, ReviewJson(d), REVIEW_NAMES, "content", AsString, "");
    assert Wrapped(d.rating as int) == d.rating;
    ReviewFields1(o, d);
    ReviewFields2(o, d);
  }

  // ---------------------------------------------------------------- renaming keys

  /** Snake_case forms hold an underscore and are told apart by the table; camelCase keys hold none. */
  ghost predicate Unambiguous(e: map<string, Json>, names: map<string, string>) {
    (forall k | k in e :: '_' !in k) && GoodTable(names)
  }

  ghost predicate GoodTable(names: map<string, string>) {
    && (forall k | k in names :: '_' in names[k])
    && (forall a, b | a in names && b in names && names[a] == names[b] :: a == b)
  }

  function NewKey(k: string, chosen: set<string>, names: map<string, string>): string {
    if k in chosen && k in names then names[k] else k
  }

  /** `e` with the chosen keys renamed, where they have a snake_case form. */
  function Renamed(e: map<string, Json>, chosen: set<string>, names: map<string, string>): map<string, Json>
    requires Unambiguous(e, names)
  {
    map k | k in e :: NewKey(k, chosen, names) := e[k]
  }

  lemma RenamedAt(e: map<string, Json>, chosen: set<string>, names: map<string, string>, k: string)
    requires Unambiguous(e, names) && k in e
    ensures KeptAt(Renamed(e, chosen, names), k, e[k], names)
  {
    var o := Renamed(e, chosen, names);
    var key := NewKey(k, chosen, names);
    assert key in o && o[key] == e[k];
    if k in names {
      var other := if key == k then names[k] else k;
      assert forall b | b in e && NewKey(b, chosen, names) == other :: b == k;
    }
  }

  lemma RenamedSpells(e: map<string, Json>, chosen: set<string>, names: map<string, string>)
    requires Unambiguous(e, names)
    ensures Spells(Renamed(e, chosen, names), e, names)
  {
    forall k | k in e ensures KeptAt(Renamed(e, chosen, names), k, e[k], names) {
      RenamedAt(e, chosen, names, k);
    }
  }

  lemma StoreKeys(d: StoreData)
    ensures forall k | k in StoreJson(d) :: '_' !in k
  {
  }

  lemma MenuKeys(d: MenuData)
    ensures forall k | k in MenuJson(d) :: '_' !in k
  {
  }

  lemma ReviewKeys(d: Review)
    ensures forall k | k in ReviewJson(d) :: '_' !in k
  {
  }

  lemma StoreInjective()
    ensures forall a, b | a in STORE_NAMES && b in STORE_NAMES && STORE_NAMES[a] == STORE_NAMES[b] :: a == b
  {
  }

  lemma StoreUnderscores()
    ensures forall k | k in STORE_NAMES :: '_' in STORE_NAMES[k]
  {
  }

  lemma MenuInjective()
    ensures forall a, b | a in MENU_NAMES && b in MENU_NAMES && MENU_NAMES[a] == MENU_NAMES[b] :: a == b
  {
  }

  lemma MenuUnderscores()
    ensures forall k | k in MENU_NAMES :: '_' in MENU_NAMES[k]
  {
  }

  lemma ReviewInjective()
    ensures forall a, b | a in REVIEW_NAMES && b in REVIEW_NAMES && REVIEW_NAMES[a] == REVIEW_NAMES[b] :: a == b
  {
  }

  lemma ReviewUnderscores()
    ensures forall k | k in REVIEW_NAMES :: '_' in REVIEW_NAMES[k]
  {
  }

  lemma StoreUnambiguous(d: StoreData)
    ensures Unambiguous(StoreJson(d), STORE_NAMES)
  {
    hide StoreJson, STORE_NAMES;
    StoreKeys(d);
    StoreInjective();
    StoreUnderscores();
  }

  lemma MenuUnambiguous(d: MenuData)
    ensures Unambiguous(MenuJson(d), MENU_NAMES)
  {
    hide MenuJson, MENU_NAMES;
    MenuKeys(d);
    MenuInjective();
    MenuUnderscores();
  }

  lemma ReviewUnambiguous(d: Review)
    ensures Unambiguous(ReviewJson(d), REVIEW_NAMES)
  {
    hide ReviewJson, REVIEW_NAMES;
    ReviewKeys(d);
    ReviewInjective();
    ReviewUnderscores();
  }

  // ---------------------------------------------------------------- the whole response

  /** The keys to rename, object by object. */
  datatype Spelling = Spelling(
    outer: set<string>, store: set<string>, menus: seq<set<string>>, reviews: seq<set<string>>)

  function SpelledStore(d: StoreData, chosen: set<string>): Json {
    StoreUnambiguous(d);
    JObject(Renamed(StoreJson(d), chosen, STORE_NAMES))
  }

  function SpelledMenu(d: MenuData, chosen: set<string>): Json {
    MenuUnambiguous(d);
    JObject(Renamed(MenuJson(d), chosen, MENU_NAMES))
  }

  function SpelledReview(d: Review, chosen: set<string>): Json {
    ReviewUnambiguous(d);
    JObject(Renamed(ReviewJson(d), chosen, REVIEW_NAMES))
  }

  predicate Fits(sp: Spelling, d: Response) {
    |sp.menus| == |d.menuList| && |sp.reviews| == |d.reviewList|
  }

  function SpelledMenus(d: Response, sp: Spelling): (r: seq<Json>)
    requires Fits(sp, d)
    ensures |r| == |d.menuList|
  {
    seq(|d.menuList|, i requires 0 <= i < |d.menuList| => SpelledMenu(d.menuList[i], sp.menus[i]))
  }

  function SpelledReviews(d: Response, sp: Spelling): (r: seq<Json>)
    requires Fits(sp, d)
    ensures |r| == |d.reviewList|
  {
    seq(|d.reviewList|, i requires 0 <= i < |d.reviewList| => SpelledReview(d.reviewList[i], sp.reviews[i]))
  }

  /** The response as sent, with the chosen keys of every object in it renamed. */
  function SpelledResponse(d: Response, sp: Spelling): Json
    requires Fits(sp, d)
  {
    var menus := SpelledMenus(d, sp);
    var reviews := SpelledReviews(d, sp);
    JObject(map["status" := Number(d.status), "storeData" := SpelledStore(d.storeData, sp.store),
                "menuList" := JArray(menus), "reviewList" := JArray(reviews),
                (if "storeAddress" in sp.outer then "store_address" else "storeAddress") := JString(d.storeAddress)])
  }

  lemma {:induction false} EachReads<T>(items: seq<Json>, get: Json -> Decoded<T>, values: seq<T>)
    requires |items| == |values| && forall i :: 0 <= i < |items| ==> get(items[i]) == Good(values[i])
    ensures Each(items, get) == Good(values)
  {
    if items != [] {
      EachReads(items[1..], get, values[1..]);
      assert values == [values[0]] + values[1..];
    }
  }

  lemma SpelledStoreReads(d: StoreData, chosen: set<string>, before: StoreData)
    ensures StoreFrom(SpelledStore(d, chosen), before) == Good(d.(category := before.category))
  {
    hide Renamed, StoreFrom, StoreJson, Spells, Unambiguous;
    StoreUnambiguous(d);
    RenamedSpells(StoreJson(d), chosen, STORE_NAMES);
    StoreReads(Renamed(StoreJson(d), chosen, STORE_NAMES), d, before);
  }

  lemma SpelledMenuReads(d: MenuData, chosen: set<string>)
    ensures MenuFrom(SpelledMenu(d, chosen)) == Good(d)
  {
    hide Renamed, MenuFrom, MenuJson, Spells, Unambiguous;
    MenuUnambiguous(d);
    RenamedSpells(MenuJson(d), chosen, MENU_NAMES);
    MenuReads(Renamed(MenuJson(d), chosen, MENU_NAMES), d);
  }

  lemma SpelledReviewReads(d: Review, chosen: set<string>)
    ensures ReviewFrom(SpelledReview(d, chosen)) == Good(d)
  {
    hide Renamed, ReviewFrom, ReviewJson, Spells, Unambiguous;
    ReviewUnambiguous(d);
    RenamedSpells(ReviewJson(d), chosen, REVIEW_NAMES);
    ReviewReads(Renamed(ReviewJson(d), chosen, REVIEW_NAMES), d);
  }

  lemma MenusRead(d: Response, sp: Spelling)
    requires Fits(sp, d)
    ensures Each(SpelledMenus(d, sp), MenuFrom) == Good(d.menuList)
  {
    hide SpelledMenu, MenuFrom;
    var items := SpelledMenus(d, sp);
    forall i | 0 <= i < |items| ensures MenuFrom(items[i]) == Good(d.menuList[i]) {
      SpelledMenuReads(d.menuList[i], sp.menus[i]);
    }
    EachReads(items, MenuFrom, d.menuList);
  }

  lemma ReviewsRead(d: Response, sp: Spelling)
    requires Fits(sp, d)
    ensures Each(SpelledReviews(d, sp), ReviewFrom) == Good(d.reviewList)
  {
    hide SpelledReview, ReviewFrom;
    var items := SpelledReviews(d, sp);
    forall i | 0 <= i < |items| ensures ReviewFrom(items[i]) == Good(d.reviewList[i]) {
      SpelledReviewReads(d.reviewList[i], sp.reviews[i]);
    }
    EachReads(items, ReviewFrom, d.reviewList);
  }

  /** Whatever keys are renamed, at every level, decoding gives back the response, with the category from before. */
  lemma ResponseRoundTrip(d: Response, sp: Spelling, before: Response)
    requires Fits(sp, d)
    ensures ResponseFrom(SpelledResponse(d, sp), before)
         == Good(d.(storeData := d.storeData.(category := before.storeData.category)))
  {
    hide StoreFrom, MenuFrom, ReviewFrom, SpelledStore, SpelledMenu, SpelledReview, Each;
    SpelledStoreReads(d.storeData, sp.store, before.storeData);
    MenusRead(d, sp);
    ReviewsRead(d, sp);
    assert Wrapped(d.status as int) == d.status;
  }

  lemma NothingRenamed(e: map<string, Json>, names: map<string, string>)
    requires Unambiguous(e, names)
    ensures Renamed(e, {}, names) == e
  {
    var o := Renamed(e, {}, names);
    assert forall k | k in e :: NewKey(k, {}, names) == k;
    assert o.Keys == e.Keys;
  }

  /** Decoding what `to_json` builds gives back the response, with the category from before. */
  lemma EncodedRoundTrip(d: Response, before: Response)
    ensures ResponseFrom(JObject(ResponseJson(d)), before)
         == Good(d.(storeData := d.storeData.(category := before.storeData.category)))
  {
    hide ResponseFrom, Unambiguous, Renamed, StoreJson, MenuJson, ReviewJson;
    var none: set<string> := {};
    var sp := Spelling(none, none, seq(|d.menuList|, _ => none), seq(|d.reviewList|, _ => none));
    ResponseRoundTrip(d, sp, before);
    StoreUnambiguous(d.storeData);
    NothingRenamed(StoreJson(d.storeData), STORE_NAMES);
    var menus := SpelledMenus(d, sp);
    forall i | 0 <= i < |menus| ensures menus[i] == JObject(MenuJson(d.menuList[i])) {
      MenuUnambiguous(d.menuList[i]);
      NothingRenamed(MenuJson(d.menuList[i]), MENU_NAMES);
    }
    assert menus == seq(|d.menuList|, i requires 0 <= i < |d.menuList| => JObject(MenuJson(d.menuList[i])));
    var reviews := SpelledReviews(d, sp);
    forall i | 0 <= i < |reviews| ensures reviews[i] == JObject(ReviewJson(d.reviewList[i])) {
      ReviewUnambiguous(d.reviewList[i]);
      NothingRenamed(ReviewJson(d.reviewList[i]), REVIEW_NAMES);
    }
    assert reviews == seq(|d.reviewList|, i requires 0 <= i < |d.reviewList| => JObject(ReviewJson(d.reviewList[i])));
  }

  /** A response decoded into a fresh structure loses its category. */
  lemma CategoryExample(d: Response, before: Response)
    requires d.storeData.category == "food" && before.storeData.category == ""
    ensures var r := ResponseFrom(JObject(ResponseJson(d)), before);
            r.Good? && r.value.storeData.category == "" && r.value != d
  {
    hide ResponseFrom, ResponseJson;
    EncodedRoundTrip(d, before);
  }

  // ---------------------------------------------------------------- absent and ill-typed keys

  /** None of the keys is there, under either spelling. */
  ghost predicate Lacks(o: map<string, Json>, e: map<string, Json>, names: map<string, string>) {
    (forall k | k in e :: k !in o) && forall k | k in names :: names[k] !in o
  }

  lemma EitherLacks<T>(o: map<string, Json>, camel: string, snake: string, get: Json -> Decoded<T>, fallback: T)
    requires camel !in o && snake !in o
    ensures Either(o, camel, snake, get, fallback) == Good(fallback)
  {
  }

  lemma NameLacks(o: map<string, Json>, e: map<string, Json>, names: map<string, string>, k: string)
    requires Lacks(o, e, names) && k in e
    ensures k !in o && (k in names ==> names[k] !in o)
  {
  }

  lemma StoreLacks1(o: map<string, Json>, d: StoreData)
    requires Lacks(o, StoreJson(d), STORE_NAMES)
    ensures Either(o, "storeId", "store_id", AsInt, 0) == Good(0)
    ensures Either(o, "storeName", "store_name", AsString, "") == Good("")
    ensures Either(o, "storeAddress", "store_address", AsString, "") == Good("")
    ensures Either(o, "operatingHours", "operating_hours", AsString, "") == Good("")
  {
    hide Lacks;
    NameLacks(o, StoreJson(d), STORE_NAMES, "storeId");
    NameLacks(o, StoreJson(d), STORE_NAMES, "storeName");
    NameLacks(o, StoreJson(d), STORE_NAMES, "storeAddress");
    NameLacks(o, StoreJson(d), STORE_NAMES, "operatingHours");
  }

  lemma StoreLacks2(o: map<string, Json>, d: StoreData)
    requires Lacks(o, StoreJson(d), STORE_NAMES)
    ensures Either(o, "deliveryFees", "delivery_fees", AsString, "") == Good("")
    ensures Either(o, "isOpen", "is_open", AsBool, false) == Good(false)
    ensures Either(o, "imageUrl", "image_url", AsString, "") == Good("")
    ensures Either(o, "minOrderAmount", "min_order_amount", AsInt, 0) == Good(0)
  {
    hide Lacks;
    NameLacks(o, StoreJson(d), STORE_NAMES, "deliveryFees");
    NameLacks(o, StoreJson(d), STORE_NAMES, "isOpen");
    NameLacks(o, StoreJson(d), STORE_NAMES, "imageUrl");
    NameLacks(o, StoreJson(d), STORE_NAMES, "minOrderAmount");
  }

  lemma StoreLacks3(o: map<string, Json>, d: StoreData)
    requires Lacks(o, StoreJson(d), STORE_NAMES)
    ensures ValueOr(o, "rating", AsReal, 0.0) == Good(0.0)
    ensures Either(o, "reviewCount", "review_count", AsInt, 0) == Good(0)
    ensures Either(o, "deliveryTimeRange", "delivery_time_range", AsString, "") == Good("")
    ensures Either(o, "pickupTime", "pickup_time", AsString, "") == Good("")
    ensures Either(o, "brandName", "brand_name", AsString, "정보 없음") == Good("정보 없음")
    ensures Either(o, "phoneNumber", "phone_number", AsString, "정보 없음") == Good("정보 없음")
    ensures Either(o, "representativeName", "representative_name", AsString, "정보 없음") == Good("정보 없음")
    ensures Either(o, "businessNumber", "business_number", AsString, "정보 없음") == Good("정보 없음")
  {
    hide Lacks;
    NameLacks(o, StoreJson(d), STORE_NAMES, "rating");
    NameLacks(o, StoreJson(d), STORE_NAMES, "reviewCount");
    NameLacks(o, StoreJson(d), STORE_NAMES, "deliveryTimeRange");
    NameLacks(o, StoreJson(d), STORE_NAMES, "pickupTime");
    NameLacks(o, StoreJson(d), STORE_NAMES, "brandName");
    NameLacks(o, StoreJson(d), STORE_NAMES, "phoneNumber");
    NameLacks(o, StoreJson(d), STORE_NAMES, "representativeName");
    NameLacks(o, StoreJson(d), STORE_NAMES, "businessNumber");
  }

  /** What an object without any of the keys decodes to. */
  lemma StoreDefaults(o: map<string, Json>, d: StoreData, before: StoreData)
    requires Lacks(o, StoreJson(d), STORE_NAMES)
    ensures StoreFrom(JObject(o), before)
         == Good(StoreData(0, "", "", "", "", false, "", 0, 0.0, 0, "", "", "정보 없음", before.category,
                           "정보 없음", "정보 없음", "정보 없음"))
  {
    hide Either, ValueOr, Lacks;
    StoreLacks1(o, d);
    StoreLacks2(o, d);
    StoreLacks3(o, d);
  }

  lemma MenuLacks1(o: map<string, Json>, d: MenuData)
    requires Lacks(o, MenuJson(d), MENU_NAMES)
    ensures Either(o, "menuId", "menu_id", AsInt, 0) == Good(0)
    ensures Either(o, "storeId", "store_id", AsInt, 0) == Good(0)
    ensures Either(o, "menuName", "menu_name", AsString, "") == Good("")
    ensures Either(o, "basePrice", "base_price", AsInt, 0) == Good(0)
    ensures Either(o, "isSoldOut", "is_sold_out", AsBool, false) == Good(false)
    ensures ValueOr(o, "description", AsString, "") == Good("")
  {
    hide Lacks;
    NameLacks(o, MenuJson(d), MENU_NAMES, "menuId");
    NameLacks(o, MenuJson(d), MENU_NAMES, "storeId");
    NameLacks(o, MenuJson(d), MENU_NAMES, "menuName");
    NameLacks(o, MenuJson(d), MENU_NAMES, "basePrice");
    NameLacks(o, MenuJson(d), MENU_NAMES, "isSoldOut");
    NameLacks(o, MenuJson(d), MENU_NAMES, "description");
  }

  lemma MenuLacks2(o: map<string, Json>, d: MenuData)
    requires Lacks(o, MenuJson(d), MENU_NAMES)
    ensures Either(o, "imageUrl", "image_url", AsString, "") == Good("")
    ensures Either(o, "menuCategory", "menu_category", AsString, "기본 메뉴") == Good("기본 메뉴")
    ensures Either(o, "isPopular", "is_popular", AsBool, false) == Good(false)
    ensures Either(o, "optionGroups", "option_groups", AsJson, JArray([])) == Good(JArray([]))
    ensures Either(o, "reviewContent", "review_content", AsString, "") == Good("")
  {
    hide Lacks;
    NameLacks(o, MenuJson(d), MENU_NAMES, "imageUrl");
    NameLacks(o, MenuJson(d), MENU_NAMES, "menuCategory");
    NameLacks(o, MenuJson(d), MENU_NAMES, "isPopular");
    NameLacks(o, MenuJson(d), MENU_NAMES, "optionGroups");
    NameLacks(o, MenuJson(d), MENU_NAMES, "reviewContent");
  }

  lemma MenuDefaults(o: map<string, Json>, d: MenuData)
    requires Lacks(o, MenuJson(d), MENU_NAMES)
    ensures MenuFrom(JObject(o))
         == Good(MenuData(0, 0, "", 0, false, "", "", "기본 메뉴", false, JArray([]), ""))
  {
    hide Either, ValueOr, Lacks;
    MenuLacks1(o, d);
    MenuLacks2(o, d);
  }

  lemma ReviewLacks1(o: map<string, Json>, d: Review)
    requires Lacks(o, ReviewJson(d), REVIEW_NAMES)
    ensures Either(o, "reviewId", "review_id", AsInt, 0) == Good(0)
    ensures Either(o, "orderId", "order_id", AsString, "") == Good("")
    ensures Either(o, "userId", "user_id", AsString, "") == Good("")
    ensures Either(o, "storeId", "store_id", AsInt, 0) == Good(0)
    ensures Either(o, "menuId", "menu_id", AsInt, 0) == Good(0)
    ensures Either(o, "menuName", "menu_name", AsString, "") == Good("")
  {
    hide Lacks;
    NameLacks(o, ReviewJson(d), REVIEW_NAMES, "reviewId");
    NameLacks(o, ReviewJson(d), REVIEW_NAMES, "orderId");
    NameLacks(o, ReviewJson(d), REVIEW_NAMES, "userId");
    NameLacks(o, ReviewJson(d), REVIEW_NAMES, "storeId");
    NameLacks(o, ReviewJson(d), REVIEW_NAMES, "menuId");
    NameLacks(o, ReviewJson(d), REVIEW_NAMES, "menuName");
  }

  lemma ReviewLacks2(o: map<string, Json>, d: Review)
    requires Lacks(o, ReviewJson(d), REVIEW_NAMES)
    ensures ValueOr(o, "rating", AsInt, 0) == Good(0)
    ensures ValueOr(o, "content", AsString, "") == Good("")
    ensures Either(o, "imageUrl", "image_url", AsString, "") == Good("")
    ensures Either(o, "ownerReply", "owner_reply", AsString, "") == Good("")
    ensures Either(o, "createdAt", "created_at", AsString, "") == Good("")
  {
    hide Lacks;
    NameLacks(o, ReviewJson(d), REVIEW_NAMES, "rating");
    NameLacks(o, ReviewJson(d), REVIEW_NAMES, "content");
    NameLacks(o, ReviewJson(d), REVIEW_NAMES, "imageUrl");
    NameLacks(o, ReviewJson(d), REVIEW_NAMES, "ownerReply");
    NameLacks(o, ReviewJson(d), REVIEW_NAMES, "createdAt");
  }

  lemma ReviewDefaults(o: map<string, Json>, d: Review)
    requires Lacks(o, ReviewJson(d), REVIEW_NAMES)
    ensures ReviewFrom(JObject(o))
         == Good(Review(0, "", "", 0, 0, "", 0, "", "", "", ""))
  {
    hide Either, ValueOr, Lacks;
    ReviewLacks1(o, d);
    ReviewLacks2(o, d);
  }

  /** A response that lacks everything keeps the store and the lists from before. */
  lemma ResponseDefaults(o: map<string, Json>, before: Response)
    requires "status" !in o && "storeData" !in o && "menuList" !in o && "reviewList" !in o
    requires "storeAddress" !in o && "store_address" !in o
    ensures ResponseFrom(JObject(o), before) == Good(before.(status := 0, storeAddress := ""))
  {
  }

  /** Anything but an object is refused, and so is a list that is no array. */
  lemma NotAnObject(j: Json, store: StoreData, before: Response)
    ensures !j.JObject? ==> StoreFrom(j, store) == TypeError && MenuFrom(j) == TypeError && ReviewFrom(j) == TypeError
                            && ResponseFrom(j, before) == TypeError
    ensures !j.JArray? ==> ResponseFrom(JObject(map["menuList" := j]), before) == TypeError
                           && ResponseFrom(JObject(map["reviewList" := j]), before) == TypeError
  {
  }

  /** A snake_case key of the wrong type is an error even where its camelCase form makes it unnecessary. */
  lemma IllTypedSnake(o: map<string, Json>, before: StoreData)
    requires "store_id" in o && !o["store_id"].JInt? && !o["store_id"].JReal? && !o["store_id"].JBool?
    ensures StoreFrom(JObject(o), before) == TypeError
  {
  }

  /** Which values are converted at all: texts and booleans only from their own kind, numbers from numbers, and integers
      from booleans too. */
  lemma StrictConversion(j: Json)
    ensures AsInt(j).Good? <==> j.JInt? || j.JReal? || j.JBool?
    ensures AsReal(j).Good? <==> j.JInt? || j.JReal?
    ensures AsString(j).Good? <==> j.JString?
    ensures AsBool(j).Good? <==> j.JBool?
    ensures AsJson(j) == Good(j)
  {
  }

  /** Numbers are taken modulo 2^32, and reals without their fraction. */
  lemma IntConversion(n: int, x: real)
    ensures var r := AsInt(JInt(n)); r.Good? && (r.value as int - n) % 0x1_0000_0000 == 0
    ensures -0x8000_0000 <= n < 0x8000_0000 ==> AsInt(JInt(n)).value as int == n
    ensures 0.0 <= x < 2147483648.0 ==> AsInt(JReal(x)).Good? && AsInt(JReal(x)).value as int == x.Floor
    ensures 0.0 < x <= 2147483648.0 ==> AsInt(JReal(-x)).Good? && AsInt(JReal(-x)).value as int == 0 - x.Floor
    ensures AsInt(JBool(true)) == Good(1) && AsInt(JBool(false)) == Good(0)
    ensures AsReal(JInt(n)) == Good(n as real) && AsReal(JReal(x)) == Good(x)
  {
    var m := n + 0x8000_0000;
    assert (m % 0x1_0000_0000 - m) % 0x1_0000_0000 == 0 by {
      assert m % 0x1_0000_0000 - m == -(m / 0x1_0000_0000) * 0x1_0000_0000;
    }
  }
}
