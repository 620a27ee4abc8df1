/**
 * The record normalisation rules of application/utils/data_clean.py: code
 * tables and their rendering, first-element extractors, the fee and opening
 * hours summaries, hotel labels and an attraction's primary category.
 *
 * A nested value that is "not a list" in the JSON is `None` here; a list is
 * `Some(xs)`. A dictionary key that may be absent is an `Option` field.
 */
module DataClean {
  import opened Optional
  import opened Strings
  import Seqs

  // ---------------------------------------------------------------------
  // Code tables
  //
  // Each dict literal is written as the union of blocks of its rows. The
  // blocks have disjoint keys, so the union is the same mapping; a
  // cleanliness fact is then proved block by block.
  // ---------------------------------------------------------------------

  /** A table whose every label is clean. */
  predicate CleanTable(table: map<int, string>) {
    forall c | c in table :: CleanLabel(table[c])
  }

  /** Merging two clean tables gives a clean table. */
  lemma CleanUnion(a: map<int, string>, b: map<int, string>)
    requires CleanTable(a) && CleanTable(b)
    ensures CleanTable(a + b)
  {
    forall c | c in a + b ensures CleanLabel((a + b)[c]) {
      if c in b {
        assert (a + b)[c] == b[c];
      } else {
        assert (a + b)[c] == a[c];
      }
    }
  }

  const AttractionRows1: map<int, string> := map[
    1 := "文化類", 3 := "文化資產類", 5 := "藝術類",
    7 := "國家公園類", 9 := "休閒農業類", 11 := "自然風景類"]
  const AttractionRows2: map<int, string> := map[
    13 := "體育健身類", 15 := "都會公園類", 17 := "平地森林園區類",
    19 := "公園綠地類", 21 := "原住民文化類", 23 := "交通場站類"]
  const AttractionRows3: map<int, string> := map[
    25 := "藝文場館類", 27 := "娛樂場館類", 2 := "生態類",
    4 := "宗教廟宇類", 6 := "商圈商店類", 8 := "國家風景區類"]
  const AttractionRows4: map<int, string> := map[
    10 := "溫泉類", 12 := "遊憩類", 14 := "觀光工廠類",
    16 := "森林遊樂區類", 18 := "國家自然公園類", 20 := "觀光遊樂業類"]
  const AttractionRows5: map<int, string> := map[
    22 := "客家文化類", 24 := "水域環境類", 26 := "生態場館類",
    254 := "其他"]

  const AttractionClassMap: map<int, string> :=
    AttractionRows1 + AttractionRows2 + AttractionRows3 + AttractionRows4 + AttractionRows5

  /** The main event classes. */
  const EventMainClasses: map<int, string> := map[
    1 := "節慶活動", 2 := "藝文活動", 3 := "年度活動",
    4 := "遊憩活動", 5 := "地方社區型活動", 9 := "其他活動"]

  /** The sub-classes of class 1, festivals. */
  const FestivalSubclasses: map<int, string> := map[
    101 := "節慶活動 - 傳統民俗型", 102 := "節慶活動 - 宗教信仰型",
    103 := "節慶活動 - 原住民文化型", 104 := "節慶活動 - 客家文化型",
    105 := "節慶活動 - 藝文慶典活動", 106 := "節慶活動 - 生態體驗型",
    107 := "節慶活動 - 地方特產型", 108 := "節慶活動 - 娛樂型活動",
    109 := "節慶活動 - 體育賽會活動", 110 := "節慶活動 - 商貿會展型"]

  /** The sub-classes of class 2, arts and culture. */
  const ArtsSubclasses1: map<int, string> := map[
    201 := "藝文活動 - 音樂", 202 := "藝文活動 - 戲劇", 203 := "藝文活動 - 舞蹈",
    204 := "藝文活動 - 親子", 205 := "藝文活動 - 獨立音樂", 206 := "藝文活動 - 展覽",
    207 := "藝文活動 - 講座", 208 := "藝文活動 - 電影"]
  const ArtsSubclasses2: map<int, string> := map[
    209 := "藝文活動 - 綜藝", 210 := "藝文活動 - 競賽", 211 := "藝文活動 - 徵選",
    212 := "藝文活動 - 演唱會", 213 := "藝文活動 - 研習課程", 214 := "藝文活動 - 閱讀",
    215 := "藝文活動 - 其他藝文活動"]

  const EventClassMap: map<int, string> :=
    EventMainClasses + FestivalSubclasses + ArtsSubclasses1 + ArtsSubclasses2

  const HotelClassMap: map<int, string> := map[
    1 := "國際觀光旅館", 2 := "一般觀光旅館", 3 := "一般旅館",
    4 := "民宿", 5 := "露營區", 9 := "其他"]

  const HotelStarsMap: map<int, string> := map[
    0 := "無星級", 1 := "1 星級", 2 := "2 星級", 3 := "3 星級",
    4 := "4 星級", 5 := "5 星級", 6 := "卓越 5 星級"]

  const CuisineRows1: map<int, string> := map[
    1 := "台灣小吃/台菜", 2 := "中式料理", 3 := "港式料理", 4 := "日式料理",
    5 := "韓式料理", 96 := "南亞料理", 97 := "東南亞料理", 98 := "美式/歐式料理"]
  const CuisineRows2: map<int, string> := map[
    99 := "其他異國料理", 100 := "夜市小吃", 101 := "甜點冰品", 102 := "麵包糕點",
    103 := "非酒精飲品", 104 := "酒類飲品", 105 := "燒烤/鐵板燒", 106 := "火鍋"]
  const CuisineRows3: map<int, string> := map[
    107 := "海鮮", 108 := "牛排", 109 := "速食", 110 := "連鎖餐飲",
    111 := "吃到飽", 112 := "便當/自助餐", 113 := "牛肉麵", 114 := "粥品"]
  const CuisineRows4: map<int, string> := map[
    115 := "地方特產", 116 := "伴手禮/禮盒", 200 := "純素飲食", 201 := "素食飲食",
    202 := "清真飲食", 203 := "無麩質飲食", 204 := "健康飲食", 254 := "其他"]

  const CuisineClassMap: map<int, string> :=
    CuisineRows1 + CuisineRows2 + CuisineRows3 + CuisineRows4

  const FeatureRows1: map<int, string> := map[
    1 := "素食餐廳", 2 := "無障礙餐廳", 3 := "寵物友善", 4 := "兒童友善",
    5 := "性別友善", 6 := "禁菸餐廳", 7 := "現場音樂表演", 8 := "室外雅座"]
  const FeatureRows2: map<int, string> := map[
    9 := "頂樓座位", 10 := "餐桌服務", 99 := "其他服務", 101 := "內用",
    102 := "外帶", 103 := "外送", 104 := "預訂", 105 := "免下車服務"]
  const FeatureRows3: map<int, string> := map[
    106 := "外燴", 107 := "團膳", 108 := "路邊取貨", 109 := "無接觸送餐服務",
    201 := "米其林指南一星", 202 := "米其林指南二星", 203 := "米其林指南三星"]
  const FeatureRows4: map<int, string> := map[
    204 := "米其林指南必比登推薦", 205 := "米其林綠星", 206 := "穆斯林認證餐廳",
    254 := "其他"]

  const RestaurantFeatureMap: map<int, string> :=
    FeatureRows1 + FeatureRows2 + FeatureRows3 + FeatureRows4

  /** A label without commas and without whitespace at either end. */
  predicate CleanLabel(s: string) {
    s != [] && Lacks(s, ',') && !IsSpace(s[0]) && !IsSpace(s[|s| - 1])
  }

  lemma AttractionRows1Clean()
    ensures forall c | c in AttractionRows1 :: CleanLabel(AttractionRows1[c])
  {
  }

  lemma AttractionRows2Clean()
    ensures forall c | c in AttractionRows2 :: CleanLabel(AttractionRows2[c])
  {
  }

  lemma AttractionRows3Clean()
    ensures forall c | c in AttractionRows3 :: CleanLabel(AttractionRows3[c])
  {
  }

  lemma AttractionRows4Clean()
    ensures forall c | c in AttractionRows4 :: CleanLabel(AttractionRows4[c])
  {
  }

  lemma AttractionRows5Clean()
    ensures forall c | c in AttractionRows5 :: CleanLabel(AttractionRows5[c])
  {
  }

  /** Every attraction class label is clean. */
  lemma AttractionTableClean()
    ensures forall c | c in AttractionClassMap :: CleanLabel(AttractionClassMap[c])
  {
    AttractionRows1Clean();
    AttractionRows2Clean();
    AttractionRows3Clean();
    AttractionRows4Clean();
    AttractionRows5Clean();
    CleanUnion(AttractionRows1, AttractionRows2);
    CleanUnion(AttractionRows1 + AttractionRows2, AttractionRows3);
    CleanUnion(AttractionRows1 + AttractionRows2 + AttractionRows3, AttractionRows4);
    CleanUnion(AttractionRows1 + AttractionRows2 + AttractionRows3 + AttractionRows4, AttractionRows5);
  }

  lemma CuisineRows1Clean()
    ensures forall c | c in CuisineRows1 :: CleanLabel(CuisineRows1[c])
  {
  }

  lemma CuisineRows2Clean()
    ensures forall c | c in CuisineRows2 :: CleanLabel(CuisineRows2[c])
  {
  }

  lemma CuisineRows3Clean()
    ensures forall c | c in CuisineRows3 :: CleanLabel(CuisineRows3[c])
  {
  }

  lemma CuisineRows4Clean()
    ensures forall c | c in CuisineRows4 :: CleanLabel(CuisineRows4[c])
  {
  }

  /** Every cuisine label is clean. */
  lemma CuisineTableClean()
    ensures forall c | c in CuisineClassMap :: CleanLabel(CuisineClassMap[c])
  {
    CuisineRows1Clean();
    CuisineRows2Clean();
    CuisineRows3Clean();
    CuisineRows4Clean();
    CleanUnion(CuisineRows1, CuisineRows2);
    CleanUnion(CuisineRows1 + CuisineRows2, CuisineRows3);
    CleanUnion(CuisineRows1 + CuisineRows2 + CuisineRows3, CuisineRows4);
  }

  lemma FeatureRows1Clean()
    ensures forall c | c in FeatureRows1 :: CleanLabel(FeatureRows1[c])
  {
  }

  lemma FeatureRows2Clean()
    ensures forall c | c in FeatureRows2 :: CleanLabel(FeatureRows2[c])
  {
  }

  lemma FeatureRows3Clean()
    ensures forall c | c in FeatureRows3 :: CleanLabel(FeatureRows3[c])
  {
  }

  lemma FeatureRows4Clean()
    ensures forall c | c in FeatureRows4 :: CleanLabel(FeatureRows4[c])
  {
  }

  /** Every restaurant feature label is clean. */
  lemma FeatureTableClean()
    ensures forall c | c in RestaurantFeatureMap :: CleanLabel(RestaurantFeatureMap[c])
  {
    FeatureRows1Clean();
    FeatureRows2Clean();
    FeatureRows3Clean();
    FeatureRows4Clean();
    CleanUnion(FeatureRows1, FeatureRows2);
    CleanUnion(FeatureRows1 + FeatureRows2, FeatureRows3);
    CleanUnion(FeatureRows1 + FeatureRows2 + FeatureRows3, FeatureRows4);
  }

  lemma EventMainClassesClean()
    ensures forall c | c in EventMainClasses :: CleanLabel(EventMainClasses[c])
  {
  }

  lemma FestivalSubclassesClean()
    ensures forall c | c in FestivalSubclasses :: CleanLabel(FestivalSubclasses[c])
  {
  }

  lemma ArtsSubclasses1Clean()
    ensures forall c | c in ArtsSubclasses1 :: CleanLabel(ArtsSubclasses1[c])
  {
  }

  lemma ArtsSubclasses2Clean()
    ensures forall c | c in ArtsSubclasses2 :: CleanLabel(ArtsSubclasses2[c])
  {
  }

  /** Every event class label is clean. */
  lemma EventTableClean()
    ensures forall c | c in EventClassMap :: CleanLabel(EventClassMap[c])
  {
    EventMainClassesClean();
    FestivalSubclassesClean();
    ArtsSubclasses1Clean();
    ArtsSubclasses2Clean();
    CleanUnion(EventMainClasses, FestivalSubclasses);
    CleanUnion(EventMainClasses + FestivalSubclasses, ArtsSubclasses1);
    CleanUnion(EventMainClasses + FestivalSubclasses + ArtsSubclasses1, ArtsSubclasses2);
  }

  // ---------------------------------------------------------------------
  // Codes to names
  // ---------------------------------------------------------------------

  /** The label of a code no table lists: `未知代碼(c)`. */
  function UnknownCode(code: int): (r: string)
    ensures CleanLabel(r)
  {
    var digits := IntToString(code);
    assert Lacks(digits, ',');
    "未知代碼(" + digits + ")"
  }

  /** `code_map.get(code, f"未知代碼({code})")`. */
  function CodeName(code: int, table: map<int, string>): string {
    if code in table then table[code] else UnknownCode(code)
  }

  function CodeNames(codes: seq<int>, table: map<int, string>): seq<string> {
    seq(|codes|, i requires 0 <= i < |codes| => CodeName(codes[i], table))
  }

  /**
   * `_convert_codes_to_names` (and `_convert_classes_to_names`,
   * `_convert_classes_to_names_event`, which fix the table): missing for a
   * non-list or an empty list, otherwise the names joined by ", ".
   */
  function CodesToNames(codes: Option<seq<int>>, table: map<int, string>): (r: Option<string>)
    ensures r.None? <==> codes.None? || codes.value == []
    ensures r.Some? ==> StartsWith(r.value, CodeName(codes.value[0], table))
  {
    if codes.None? || codes.value == [] then None
    else
      var names := CodeNames(codes.value, table);
      FirstPieceIsPrefix(names, ", ");
      Some(Join(names, ", "))
  }

  /**
   * With comma-free labels, splitting the rendered string at ", " gives back
   * exactly one name per code, in the order of the codes.
   */
  lemma CodesToNamesSplit(codes: seq<int>, table: map<int, string>)
    requires codes != []
    requires forall c | c in table :: CleanLabel(table[c])
    ensures Split(CodesToNames(Some(codes), table).value, ", ") == CodeNames(codes, table)
    ensures |CodeNames(codes, table)| == |codes|
    ensures forall i | 0 <= i < |codes| ::
      CodeNames(codes, table)[i] == if codes[i] in table then table[codes[i]] else UnknownCode(codes[i])
  {
    var names := CodeNames(codes, table);
    forall p | p in names ensures !Contains(p, ", ") {
      var i :| 0 <= i < |names| && names[i] == p;
      assert CleanLabel(CodeName(codes[i], table));
      LacksNotContains(p, ", ");
    }
    assert Unbordered(", ") by {
      assert ", "[1..][0] != ", "[..1][0];
    }
    SplitJoin(names, ", ");
  }

  // ---------------------------------------------------------------------
  // Primary category
  // ---------------------------------------------------------------------

  /** `AttractionCategory.str.split(',').str[0].str.strip()`. */
  function PrimaryCategory(category: Option<string>): (r: Option<string>)
    ensures r.Some? <==> category.Some?
    ensures r.Some? ==> Strip(r.value) == r.value
  {
    match category
    case None => None
    case Some(c) =>
      var p := Strip(Split(c, ",")[0]);
      StripUnpadded(p);
      Some(p)
  }

  /** An attraction's primary category is the name of its first class code. */
  lemma PrimaryCategoryIsFirstClass(codes: seq<int>)
    requires codes != []
    ensures PrimaryCategory(CodesToNames(Some(codes), AttractionClassMap))
         == Some(CodeName(codes[0], AttractionClassMap))
  {
    AttractionTableClean();
    PrimaryCategoryIsFirstName(codes, AttractionClassMap);
  }

  /** Over a clean table, the text before the first comma is the first code's name. */
  lemma {:induction false} PrimaryCategoryIsFirstName(codes: seq<int>, table: map<int, string>)
    requires codes != []
    requires CleanTable(table)
    ensures PrimaryCategory(CodesToNames(Some(codes), table)) == Some(CodeName(codes[0], table))
  {
    var names := CodeNames(codes, table);
    assert names[0] == CodeName(codes[0], table) && CleanLabel(names[0]);
    assert CodesToNames(Some(codes), table) == Some(Join(names, ", "));
    FirstJoinedName(names);
  }

  /** Before the first comma of clean names joined by ", " stands the first name. */
  lemma FirstJoinedName(names: seq<string>)
    requires names != [] && CleanLabel(names[0])
    ensures Strip(Split(Join(names, ", "), ",")[0]) == names[0]
  {
    var first := names[0];
    LacksNotContains(first, ",");
    if |names| == 1 {
      assert Join(names, ", ") == first;
      SplitSingle(first, ",");
    } else {
      var rest := " " + Join(names[1..], ", ");
      assert Join(names, ", ") == first + "," + rest;
      SplitAtFirst(first, ",", rest);
    }
    StripUnpadded(first);
  }

  // ---------------------------------------------------------------------
  // First-element extractors
  // ---------------------------------------------------------------------

  /** One entry of an `Images` list; its `URL` key may be absent. */
  datatype Image = Image(url: Option<string>)

  /** The `Tel` key of a telephone entry: absent, present with JSON `null`, or a number. */
  datatype TelField = TelAbsent | TelNull | Tel(number: string)

  /** One entry of a `Telephones` list. */
  datatype Telephone = Telephone(tel: TelField)

  /**
   * The thumbnail: the first image's URL. Missing for a non-list, an empty
   * list, or a first image without a URL; later images are never consulted.
   * The hotel and restaurant loaders' inline lambdas compute the same value.
   */
  function ThumbnailUrl(images: Option<seq<Image>>): (r: Option<string>)
    ensures r.Some? <==> images.Some? && images.value != [] && images.value[0].url.Some?
    ensures r.Some? ==> r == images.value[0].url
  {
    if images.Some? && images.value != [] then images.value[0].url else None
  }

  /**
   * `_get_main_telephone`: the first entry's `Tel`; missing for a non-list,
   * an empty list, a first entry without `Tel`, or a `null` `Tel`.
   */
  function MainTelephone(tels: Option<seq<Telephone>>): (r: Option<string>)
    ensures r.Some? <==> tels.Some? && tels.value != [] && tels.value[0].tel.Tel?
    ensures r.Some? ==> r.value == tels.value[0].tel.number
  {
    if tels.Some? && tels.value != [] && tels.value[0].tel.Tel? then Some(tels.value[0].tel.number) else None
  }

  /** What an extraction lambda yields for one cell: a value, or a `KeyError` that aborts the loader. */
  datatype Extraction = Extracted(value: Option<string>) | KeyErrorRaised

  /**
   * The hotel and restaurant loaders' telephone lambda as written: it reads
   * `x[0]['Tel']` without checking that the key exists. A `null` `Tel` reads
   * as None without error; only an absent key raises.
   */
  function MainTelephoneAsWritten(tels: Option<seq<Telephone>>): (r: Extraction)
    ensures r.KeyErrorRaised? <==> tels.Some? && tels.value != [] && tels.value[0].tel.TelAbsent?
    ensures r.Extracted? ==> r.value == MainTelephone(tels)
  {
    if tels.Some? && tels.value != [] then
      match tels.value[0].tel
      case TelAbsent => KeyErrorRaised
      case TelNull => Extracted(None)
      case Tel(n) => Extracted(Some(n))
    else Extracted(None)
  }

  /** A first telephone entry without `Tel` aborts the as-written lambda, where the checked rule yields missing. */
  lemma TelephoneWithoutTel()
    ensures MainTelephoneAsWritten(Some([Telephone(TelAbsent), Telephone(Tel("02-1234"))])) == KeyErrorRaised
    ensures MainTelephone(Some([Telephone(TelAbsent), Telephone(Tel("02-1234"))])) == None
  {
  }

  /** A first entry whose `Tel` is `null` does not abort: both rules yield missing. */
  lemma TelephoneNullTel()
    ensures MainTelephoneAsWritten(Some([Telephone(TelNull), Telephone(Tel("02-1234"))])) == Extracted(None)
    ensures MainTelephone(Some([Telephone(TelNull), Telephone(Tel("02-1234"))])) == None
  {
  }

  // ---------------------------------------------------------------------
  // Fee summary
  // ---------------------------------------------------------------------

  /** A fee's `Price` as the JSON held it. */
  datatype Price = IntPrice(n: int) | RealPrice(x: real) | TextPrice(t: string) | NoPrice

  /** `float(value)` when `str(value).isdigit()`; `str` of a float always holds a '.', so never. */
  function PriceAmount(p: Price): Option<nat> {
    match p
    case IntPrice(n) => if n >= 0 then Some(n) else None
    case TextPrice(t) => if IsDigits(t) then Some(DigitsValue(t)) else None
    case RealPrice(_) => None
    case NoPrice => None
  }

  const Free := "免費"

  /** `$n` for a positive amount, `免費` otherwise; the digits after `$` spell the amount. */
  function PriceLabel(p: Price): (r: string)
    ensures r == Free <==> PriceAmount(p).None? || PriceAmount(p).value == 0
    ensures r != []
    ensures r != Free ==> r[0] == '$' && IsDigits(r[1..]) && DigitsValue(r[1..]) == PriceAmount(p).value
    ensures Lacks(r, '\n')
  {
    var amount := PriceAmount(p);
    if amount.Some? && amount.value > 0 then
      NatToStringValue(amount.value);
      assert ("$" + NatToString(amount.value))[1..] == NatToString(amount.value);
      "$" + NatToString(amount.value)
    else Free
  }

  /** A price written as a digit string and the same price written as a number render alike. */
  lemma PriceSpellingsAgree(n: nat)
    ensures PriceLabel(TextPrice(NatToString(n))) == PriceLabel(IntPrice(n))
  {
    NatToStringValue(n);
    assert PriceAmount(TextPrice(NatToString(n))) == Some(n) == PriceAmount(IntPrice(n));
    SameAmountSameLabel(TextPrice(NatToString(n)), IntPrice(n));
  }

  lemma SameAmountSameLabel(p: Price, q: Price)
    requires PriceAmount(p) == PriceAmount(q)
    ensures PriceLabel(p) == PriceLabel(q)
  {
  }

  /** One entry of a `Fees` list. */
  datatype FeeItem = FeeItem(name: Option<string>, price: Price)

  function FeeLine(item: FeeItem): string {
    item.name.GetOr("項目") + ": " + PriceLabel(item.price)
  }

  function FeeLines(items: seq<FeeItem>): (r: seq<string>)
    ensures |r| == |items|
  {
    if items == [] then [] else FeeLines(items[..|items| - 1]) + [FeeLine(items[|items| - 1])]
  }

  /** The fee summary `_summarize_list_data` builds with `is_fee=True`. */
  function FeesSummary(items: Option<seq<FeeItem>>): Option<string> {
    if items.None? || items.value == [] then None else Some(Join(FeeLines(items.value), "\n"))
  }

  /** `_summarize_list_data(x, 'Name', 'Price', is_fee=True)`: one line per fee, joined by newlines. */
  method SummarizeFees(items: Option<seq<FeeItem>>) returns (r: Option<string>)
    ensures r == FeesSummary(items)
  {
    if items.None? || items.value == [] {
      return None;
    }
    var xs := items.value;
    var summary: seq<string> := [];
    for i := 0 to |xs|
      invariant summary == FeeLines(xs[..i])
    {
      FeeLinesSnoc(xs, i);
      summary := summary + [FeeLine(xs[i])];
    }
    assert xs[..|xs|] == xs;
    return Some(Join(summary, "\n"));
  }

  lemma FeeLinesSnoc(xs: seq<FeeItem>, i: nat)
    requires i < |xs|
    ensures FeeLines(xs[..i + 1]) == FeeLines(xs[..i]) + [FeeLine(xs[i])]
  {
    var p := xs[..i + 1];
    assert p[..|p| - 1] == xs[..i] && p[|p| - 1] == xs[i];
  }

  /**
   * With single-line fee names, the summary splits back at newlines into one
   * line per fee, in order, the k-th reading `name: label` for the k-th fee.
   */
  lemma {:induction false} FeesSummaryLines(items: seq<FeeItem>)
    requires items != []
    requires forall k | 0 <= k < |items| :: Lacks(items[k].name.GetOr("項目"), '\n')
    ensures Split(FeesSummary(Some(items)).value, "\n") == FeeLines(items)
    ensures forall k | 0 <= k < |items| :: FeeLines(items)[k] == FeeLine(items[k])
  {
    FeeLinesAt(items);
    var lines := FeeLines(items);
    forall p | p in lines ensures !Contains(p, "\n") {
      var k :| 0 <= k < |lines| && lines[k] == p;
      FeeLineSingle(items[k]);
      LacksNotContains(p, "\n");
    }
    SplitJoin(lines, "\n");
  }

  lemma FeeLineSingle(item: FeeItem)
    requires Lacks(item.name.GetOr("項目"), '\n')
    ensures Lacks(FeeLine(item), '\n')
  {
  }

  lemma {:induction false} FeeLinesAt(items: seq<FeeItem>)
    ensures forall k | 0 <= k < |items| :: FeeLines(items)[k] == FeeLine(items[k])
  {
    if items != [] {
      var n := |items| - 1;
      var init := items[..n];
      FeeLinesAt(init);
      var prev := FeeLines(init);
      assert forall k | 0 <= k < n :: items[k] == init[k];
      Seqs.MappedSnoc(items, prev, FeeLine(items[n]), FeeLine);
    }
  }

  // ---------------------------------------------------------------------
  // Attraction service-time summary
  // ---------------------------------------------------------------------

  /** One entry of a `ServiceTimes` list; an absent `ServiceDays` is the empty list. */
  datatype ServiceTime = ServiceTime(name: Option<string>, days: seq<string>, start: Option<string>, end: Option<string>)

  predicate IsRestDay(name: string) {
    name == "公休日" || name == "休假日"
  }

  /** One line: `name: days` for rest days or an empty day list, otherwise `name: (days) start - end`. */
  function TimeLine(item: ServiceTime): string {
    var name := item.name.GetOr("項目");
    var days := Join(item.days, ", ");
    if IsRestDay(name) || item.days == [] then name + ": " + days
    else name + ": (" + days + ") " + item.start.GetOr("") + " - " + item.end.GetOr("")
  }

  function TimeLines(items: seq<ServiceTime>): (r: seq<string>)
    ensures |r| == |items|
  {
    if items == [] then [] else TimeLines(items[..|items| - 1]) + [TimeLine(items[|items| - 1])]
  }

  /** The summary `_summarize_list_data` builds for `ServiceTimes` (`is_fee=False`). */
  function ServiceTimesSummary(items: Option<seq<ServiceTime>>): Option<string> {
    if items.None? || items.value == [] then None else Some(Join(TimeLines(items.value), "\n"))
  }

  /** `_summarize_list_data(x, 'Name', 'ServiceDays', is_fee=False)`. */
  method SummarizeServiceTimes(items: Option<seq<ServiceTime>>) returns (r: Option<string>)
    ensures r == ServiceTimesSummary(items)
  {
    if items.None? || items.value == [] {
      return None;
    }
    var xs := items.value;
    var summary: seq<string> := [];
    for i := 0 to |xs|
      invariant summary == TimeLines(xs[..i])
    {
      assert xs[..i + 1][..i] == xs[..i];
      var item := xs[i];
      var name := item.name.GetOr("項目");
      var days := Join(item.days, ", ");
      if IsRestDay(name) || item.days == [] {
        summary := summary + [name + ": " + days];
        continue;
      }
      var start := item.start.GetOr("");
      var end := item.end.GetOr("");
      summary := summary + [name + ": (" + days + ") " + start + " - " + end];
    }
    assert xs[..|xs|] == xs;
    return Some(Join(summary, "\n"));
  }

  /** Every text field of an entry is a single line. */
  predicate SingleLineEntry(item: ServiceTime) {
    Lacks(item.name.GetOr("項目"), '\n') && Lacks(item.start.GetOr(""), '\n') && Lacks(item.end.GetOr(""), '\n')
    && forall d | d in item.days :: Lacks(d, '\n')
  }

  lemma TimeLineSingle(item: ServiceTime)
    requires SingleLineEntry(item)
    ensures Lacks(TimeLine(item), '\n')
  {
    JoinLacks(item.days, ", ", '\n');
  }

  /**
   * With single-line fields, the time summary splits back at newlines into
   * one line per entry, in order; a rest-day entry's line names its days and
   * no times.
   */
  lemma {:induction false} ServiceTimesSummaryLines(items: seq<ServiceTime>)
    requires items != []
    requires forall k | 0 <= k < |items| :: SingleLineEntry(items[k])
    ensures Split(ServiceTimesSummary(Some(items)).value, "\n") == TimeLines(items)
    ensures forall k | 0 <= k < |items| :: TimeLines(items)[k] == TimeLine(items[k])
    ensures forall k | 0 <= k < |items| && IsRestDay(items[k].name.GetOr("項目")) ::
      TimeLines(items)[k] == items[k].name.GetOr("項目") + ": " + Join(items[k].days, ", ")
  {
    TimeLinesAt(items);
    var lines := TimeLines(items);
    forall p | p in lines ensures !Contains(p, "\n") {
      var k :| 0 <= k < |lines| && lines[k] == p;
      TimeLineSingle(items[k]);
      LacksNotContains(p, "\n");
    }
    SplitJoin(lines, "\n");
  }

  lemma {:induction false} TimeLinesAt(items: seq<ServiceTime>)
    ensures forall k | 0 <= k < |items| :: TimeLines(items)[k] == TimeLine(items[k])
  {
    if items != [] {
      var n := |items| - 1;
      var init := items[..n];
      TimeLinesAt(init);
      var prev := TimeLines(init);
      assert forall k | 0 <= k < n :: items[k] == init[k];
      Seqs.MappedSnoc(items, prev, TimeLine(items[n]), TimeLine);
    }
  }

  // ---------------------------------------------------------------------
  // Restaurant opening-hours summary
  // ---------------------------------------------------------------------

  /** How many service days an entry lists, in words: 每日, 每週n天 or N/A. */
  function DayCountLabel(count: nat): (r: string)
    ensures r == "每日" <==> count == 7
    ensures r == "N/A" <==> count == 0
    ensures count != 7 && count > 0 ==>
      |r| >= 3 && r[..2] == "每週" && r[|r| - 1] == '天' && IsDigits(r[2..|r| - 1]) && DigitsValue(r[2..|r| - 1]) == count
  {
    if count == 7 then "每日"
    else if count > 0 then
      var digits := NatToString(count);
      NatToStringValue(count);
      var r := "每週" + digits + "天";
      assert r[2..|r| - 1] == digits && r[..2] == "每週";
      r
    else "N/A"
  }

  /** One entry of a restaurant's `ServiceTimes` list; absent keys are `None` or the empty day list. */
  datatype OpeningHours = OpeningHours(name: Option<string>, days: seq<string>, start: Option<string>, end: Option<string>)

  /** A rest day that lists days shows them; every other entry shows a day count and its hours. */
  function HoursLine(item: OpeningHours): string {
    var name := item.name.GetOr("N/A");
    if IsRestDay(name) && |item.days| > 0 then name + ": " + Join(item.days, ", ")
    else name + ": " + DayCountLabel(|item.days|) + " (" + item.start.GetOr("N/A") + " - " + item.end.GetOr("N/A") + ")"
  }

  function HoursLines(items: seq<OpeningHours>): (r: seq<string>)
    ensures |r| == |items|
  {
    if items == [] then [] else HoursLines(items[..|items| - 1]) + [HoursLine(items[|items| - 1])]
  }

  /** The summary `_summarize_list_restaurant_data` builds. */
  function OpeningHoursSummary(items: Option<seq<OpeningHours>>): Option<string> {
    if items.None? || items.value == [] then None else Some(Join(HoursLines(items.value), " | "))
  }

  /** `_summarize_list_restaurant_data(x, 'Name', 'ServiceDays')`. */
  method SummarizeOpeningHours(items: Option<seq<OpeningHours>>) returns (r: Option<string>)
    ensures r == OpeningHoursSummary(items)
  {
    if items.None? || items.value == [] {
      return None;
    }
    var xs := items.value;
    var summaries: seq<string> := [];
    for i := 0 to |xs|
      invariant summaries == HoursLines(xs[..i])
    {
      assert xs[..i + 1][..i] == xs[..i];
      var item := xs[i];
      var name := item.name.GetOr("N/A");
      var dayCount := |item.days|;
      if IsRestDay(name) && dayCount > 0 {
        summaries := summaries + [name + ": " + Join(item.days, ", ")];
        continue;
      }
      var start := item.start.GetOr("N/A");
      var end := item.end.GetOr("N/A");
      var dayStr;
      if dayCount == 7 {
        dayStr := "每日";
      } else if dayCount > 0 {
        dayStr := "每週" + NatToString(dayCount) + "天";
      } else {
        dayStr := "N/A";
      }
      summaries := summaries + [name + ": " + dayStr + " (" + start + " - " + end + ")"];
    }
    assert xs[..|xs|] == xs;
    return Some(Join(summaries, " | "));
  }

  /** Entries are rendered in input order: the summary of `a + b` is that of `a`, " | ", then that of `b`. */
  lemma {:induction false} OpeningHoursSummaryAppend(a: seq<OpeningHours>, b: seq<OpeningHours>)
    requires a != [] && b != []
    ensures OpeningHoursSummary(Some(a + b)).value
         == OpeningHoursSummary(Some(a)).value + " | " + OpeningHoursSummary(Some(b)).value
  {
    HoursLinesConcat(a, b);
    JoinConcat(HoursLines(a), HoursLines(b), " | ");
  }

  lemma {:induction false} HoursLinesConcat(a: seq<OpeningHours>, b: seq<OpeningHours>)
    ensures HoursLines(a + b) == HoursLines(a) + HoursLines(b)
    decreases |b|
  {
    if b != [] {
      assert (a + b)[..|a + b| - 1] == a + b[..|b| - 1];
      HoursLinesConcat(a, b[..|b| - 1]);
    } else {
      assert a + b == a;
    }
  }

  // ---------------------------------------------------------------------
  // Hotel labels
  // ---------------------------------------------------------------------

  /** `MainHotelClass`: the first code of `HotelClasses`, missing for a non-list or an empty list. */
  function MainHotelClass(classes: Option<seq<int>>): (r: Option<int>)
    ensures r.Some? <==> classes.Some? && classes.value != []
    ensures r.Some? ==> r.value == classes.value[0]
  {
    if classes.Some? && classes.value != [] then Some(classes.value[0]) else None
  }

  /** `HotelClassName`: the class's label, or `未知類型` exactly when the class is missing or unmapped. */
  function HotelClassName(main: Option<int>): (r: string)
    ensures r == "未知類型" <==> main.None? || main.value !in HotelClassMap
    ensures r != "未知類型" ==> r == HotelClassMap[main.value]
  {
    if main.Some? && main.value in HotelClassMap then HotelClassMap[main.value] else "未知類型"
  }

  /** `HotelStarsName`: the star label, or `未知星級` exactly when the rating is missing or unmapped. */
  function HotelStarsName(stars: Option<int>): (r: string)
    ensures r == "未知星級" <==> stars.None? || stars.value !in HotelStarsMap
    ensures r != "未知星級" ==> r == HotelStarsMap[stars.value]
  {
    if stars.Some? && stars.value in HotelStarsMap then HotelStarsMap[stars.value] else "未知星級"
  }
}
