/**
 The tag registry: names become bits of a 64-bit mask, aliases become names. The masks refine an ordered list
 of at most 64 distinct names.
 */
module TagRegistry {

  // --------------------------------------------------------------------- words

  /** A uint64_t as the set of positions of its one bits; `|`, `&` and `& ~` are `+`, `*` and `-`. */
  type Word = w: set<nat> | forall b :: b in w ==> b < 64

  /** A shift left by one; the top bit is lost. */
  function Shl(w: Word): Word { set b | b in w && b < 63 :: b + 1 }

  /** 1 shifted left n times. */
  function Bit(n: nat): Word { if n < 64 then {n} else {} }

  /** The test `mask & tag`. */
  predicate Has(mask: Word, tag: Word) { mask * tag != {} }

  /** The bits of a word below position n. */
  function Low(w: Word, n: nat): Word { set b | b in w && b < n }

  lemma ShlBit(n: nat)
    ensures Shl(Bit(n)) == Bit(n + 1)
  {
    if n < 63 {
      assert n in Bit(n);
    }
  }

  lemma HasBit(w: Word, i: nat)
    requires i < 64
    ensures Has(w, Bit(i)) <==> i in w
  {
    if i in w {
      assert i in w * Bit(i);
    } else {
      assert w * Bit(i) == {};
    }
  }

  // ----------------------------------------------------------------- registry

  datatype Info = Info(name: string, description: string, category: string, aliases: seq<string>, mask: Word)

  datatype Registry = Registry(tags: map<string, Info>, nameToMask: map<string, Word>, aliases: map<string, string>, next: Word)

  function Empty(): Registry { Registry(map[], map[], map[], {0}) }

  function Register(r: Registry, name: string, description: string, category: string): Registry {
    if name in r.tags || r.next == {} then r
    else Registry(r.tags[name := Info(name, description, category, [], r.next)], r.nameToMask[name := r.next], r.aliases, Shl(r.next))
  }

  function AddAlias(r: Registry, tag: string, alias: string): Registry {
    if tag !in r.tags then r
    else
      var info := r.tags[tag];
      r.(aliases := r.aliases[alias := tag], tags := r.tags[tag := info.(aliases := info.aliases + [alias])])
  }

  function Resolve(r: Registry, name: string): string {
    if name in r.aliases then r.aliases[name] else name
  }

  function GetTag(r: Registry, name: string): Word {
    var resolved := Resolve(r, name);
    if resolved in r.nameToMask then r.nameToMask[resolved] else {}
  }

  function GetMask(r: Registry, names: seq<string>): Word {
    if names == [] then {} else GetMask(r, names[..|names| - 1]) + GetTag(r, names[|names| - 1])
  }

  // ------------------------------------------------------------ the reference

  /** The simple form: the tags in the order in which they were accepted. */
  function Accept(order: seq<string>, name: string): seq<string> {
    if name in order || |order| >= 64 then order else order + [name]
  }

  ghost predicate Distinct(s: seq<string>) { forall i, j :: 0 <= i < j < |s| ==> s[i] != s[j] }

  /** The mask map holds exactly the names of the list, each under the bit of its place. */
  ghost predicate MasksHold(masks: map<string, Word>, order: seq<string>) {
    && (forall n :: n in masks <==> n in order)
    && (forall i :: 0 <= i < |order| ==> masks[order[i]] == Bit(i))
  }

  /** The tag map agrees with the mask map. */
  ghost predicate TagsHold(tags: map<string, Info>, masks: map<string, Word>) {
    && tags.Keys == masks.Keys
    && (forall n :: n in tags ==> tags[n].name == n && tags[n].mask == masks[n])
  }

  ghost predicate AliasesHold(aliases: map<string, string>, order: seq<string>) {
    forall a :: a in aliases ==> aliases[a] in order
  }

  /** The registry holds exactly the listed names, each under the bit of its place; aliases lead to tags. */
  ghost predicate Refines(r: Registry, order: seq<string>) {
    && Distinct(order) && |order| <= 64
    && r.next == Bit(|order|)
    && MasksHold(r.nameToMask, order)
    && TagsHold(r.tags, r.nameToMask)
    && AliasesHold(r.aliases, order)
  }

  lemma EmptyRefines()
    ensures Refines(Empty(), [])
  {
  }

  lemma MasksMore(masks: map<string, Word>, order: seq<string>, name: string)
    requires MasksHold(masks, order) && Distinct(order) && name !in order
    ensures MasksHold(masks[name := Bit(|order|)], order + [name]) && Distinct(order + [name])
  {
    var more := order + [name];
    assert forall n :: n in more <==> n in order || n == name;
  }

  lemma FullWhenZero(r: Registry, order: seq<string>)
    requires Refines(r, order)
    ensures r.next == {} <==> |order| == 64
  {
    if |order| < 64 {
      assert |order| in r.next;
    }
  }

  lemma AddRefines(r: Registry, order: seq<string>, name: string, info: Info)
    requires Refines(r, order) && name !in order && |order| < 64 && info.name == name && info.mask == r.next
    ensures Refines(Registry(r.tags[name := info], r.nameToMask[name := r.next], r.aliases, Shl(r.next)), order + [name])
  {
    ShlBit(|order|);
    MasksMore(r.nameToMask, order, name);
  }

  /** One registration does to the maps what acceptance does to the list. */
  lemma RegisterRefines(r: Registry, order: seq<string>, name: string, description: string, category: string)
    requires Refines(r, order)
    ensures Refines(Register(r, name, description, category), Accept(order, name))
  {
    FullWhenZero(r, order);
    if name !in order && |order| < 64 {
      AddRefines(r, order, name, Info(name, description, category, [], r.next));
    }
  }

  lemma AliasRefines(r: Registry, order: seq<string>, tag: string, alias: string)
    requires Refines(r, order)
    ensures Refines(AddAlias(r, tag, alias), order)
  {
  }

  datatype Op = RegisterTag(name: string, description: string, category: string) | Alias(tag: string, alias: string)

  function Apply(r: Registry, op: Op): Registry {
    match op
    case RegisterTag(name, description, category) => Register(r, name, description, category)
    case Alias(tag, alias) => AddAlias(r, tag, alias)
  }

  function Run(r: Registry, ops: seq<Op>): Registry
    decreases |ops|
  {
    if ops == [] then r else Run(Apply(r, ops[0]), ops[1..])
  }

  /** The list after the registrations of a run: the first 64 distinct names, in order. */
  function Accepted(order: seq<string>, ops: seq<Op>): seq<string>
    decreases |ops|
  {
    if ops == [] then order
    else Accepted(if ops[0].RegisterTag? then Accept(order, ops[0].name) else order, ops[1..])
  }

  /** After any run the registry holds the first 64 distinct names, each under its own bit, which it keeps. */
  lemma {:induction false} RunRefines(r: Registry, order: seq<string>, ops: seq<Op>)
    requires Refines(r, order)
    ensures Refines(Run(r, ops), Accepted(order, ops))
    ensures order <= Accepted(order, ops)
    ensures forall n :: n in r.nameToMask ==> n in Run(r, ops).nameToMask && Run(r, ops).nameToMask[n] == r.nameToMask[n]
    decreases |ops|
  {
    if ops != [] {
      var next := if ops[0].RegisterTag? then Accept(order, ops[0].name) else order;
      match ops[0] {
        case RegisterTag(name, description, category) => RegisterRefines(r, order, name, description, category);
        case Alias(tag, alias) => AliasRefines(r, order, tag, alias);
      }
      RunRefines(Apply(r, ops[0]), next, ops[1..]);
    }
  }

  /** So for a registry from its start: the names registered are the first 64 distinct ones, in order. */
  lemma FreshRunRefines(ops: seq<Op>)
    ensures Refines(Run(Empty(), ops), Accepted([], ops))
    ensures forall n :: n in Run(Empty(), ops).tags <==> n in Accepted([], ops)
  {
    EmptyRefines();
    RunRefines(Empty(), [], ops);
  }

  /** A registered name has a place in the list, and the bit of that place. */
  lemma PlaceOf(r: Registry, order: seq<string>, name: string) returns (i: nat)
    requires Refines(r, order) && name in r.nameToMask
    ensures i < |order| && order[i] == name && r.nameToMask[name] == {i}
  {
    i :| i < |order| && order[i] == name;
  }

  /** Masks are single bits and two tags share one only if they are the same tag. */
  lemma MasksDisjoint(r: Registry, order: seq<string>, a: string, b: string)
    requires Refines(r, order) && a in r.nameToMask && b in r.nameToMask
    ensures |r.nameToMask[a]| == 1
    ensures Has(r.nameToMask[a], r.nameToMask[b]) <==> a == b
  {
    var i := PlaceOf(r, order, a);
    var j := PlaceOf(r, order, b);
    HasBit(r.nameToMask[a], j);
  }

  /** A new name is refused, and the registry left as it is, exactly when 64 tags are registered. */
  lemma RefusedWhenFull(r: Registry, order: seq<string>, name: string, description: string, category: string)
    requires Refines(r, order) && name !in r.tags
    ensures Register(r, name, description, category) == r <==> |order| == 64
    ensures name in Register(r, name, description, category).tags <==> |order| < 64
  {
    FullWhenZero(r, order);
  }

  // -------------------------------------------------------------------- masks

  /** Some name of the list resolves to the tag. */
  ghost predicate Named(r: Registry, names: seq<string>, tag: string) {
    exists i :: 0 <= i < |names| && Resolve(r, names[i]) == tag
  }

  lemma NamedSplits(r: Registry, names: seq<string>, tag: string)
    requires names != []
    ensures Named(r, names, tag) <==> Named(r, names[..|names| - 1], tag) || Resolve(r, names[|names| - 1]) == tag
  {
    var front := names[..|names| - 1];
    if i :| 0 <= i < |front| && Resolve(r, front[i]) == tag {
      assert names[i] == front[i];
    }
    if i :| 0 <= i < |front| && Resolve(r, names[i]) == tag {
      assert front[i] == names[i];
    }
  }

  lemma OneName(r: Registry, order: seq<string>, name: string, tag: string)
    requires Refines(r, order) && tag in r.nameToMask
    ensures Has(GetTag(r, name), r.nameToMask[tag]) <==> Resolve(r, name) == tag
  {
    if Resolve(r, name) in r.nameToMask {
      MasksDisjoint(r, order, Resolve(r, name), tag);
    }
  }

  lemma OrTests(a: Word, b: Word, t: Word)
    ensures Has(a + b, t) <==> Has(a, t) || Has(b, t)
  {
    assert (a + b) * t == a * t + b * t;
  }

  /** The mask of a list has a tag's bit if and only if some name of the list resolves to that tag. */
  lemma {:induction false} MaskHasTag(r: Registry, order: seq<string>, names: seq<string>, tag: string)
    requires Refines(r, order) && tag in r.nameToMask
    ensures Has(GetMask(r, names), r.nameToMask[tag]) <==> Named(r, names, tag)
    decreases |names|
  {
    if names != [] {
      var front, last := names[..|names| - 1], names[|names| - 1];
      MaskHasTag(r, order, front, tag);
      NamedSplits(r, names, tag);
      OneName(r, order, last, tag);
      OrTests(GetMask(r, front), GetTag(r, last), r.nameToMask[tag]);
    }
  }

  lemma TagBelow(r: Registry, order: seq<string>, name: string)
    requires Refines(r, order)
    ensures forall b :: b in GetTag(r, name) ==> b < |order|
  {
    if Resolve(r, name) in r.nameToMask {
      var i := PlaceOf(r, order, Resolve(r, name));
    }
  }

  /** The mask of a list never holds a bit that no tag has. */
  lemma {:induction false} MaskBelow(r: Registry, order: seq<string>, names: seq<string>)
    requires Refines(r, order)
    ensures Low(GetMask(r, names), |order|) == GetMask(r, names)
    decreases |names|
  {
    if names != [] {
      MaskBelow(r, order, names[..|names| - 1]);
      TagBelow(r, order, names[|names| - 1]);
    }
  }

  /** Two masks with the same tags have the same bits below the number of tags. */
  lemma SameTags(r: Registry, order: seq<string>, a: Word, b: Word)
    requires Refines(r, order)
    requires forall t :: t in r.nameToMask ==> (Has(a, r.nameToMask[t]) <==> Has(b, r.nameToMask[t]))
    ensures Low(a, |order|) == Low(b, |order|)
  {
    forall i: nat | i < |order| ensures i in a <==> i in b {
      assert order[i] in r.nameToMask;
      HasBit(a, i);
      HasBit(b, i);
    }
  }

  /** The names a mask stands for. */
  ghost predicate Lists(r: Registry, mask: Word, names: seq<string>) {
    forall n :: n in names <==> n in r.nameToMask && Has(mask, r.nameToMask[n])
  }

  /** The names of a list resolve to exactly the list's own names. */
  ghost predicate OwnNames(r: Registry, names: seq<string>) {
    forall t :: t in r.nameToMask ==> (Named(r, names, t) <==> t in names)
  }

  /** Looking up the names a mask stands for gives back its named bits exactly when aliases do not lead elsewhere. */
  lemma MaskRoundTrip(r: Registry, order: seq<string>, mask: Word, names: seq<string>)
    requires Refines(r, order) && Lists(r, mask, names)
    ensures GetMask(r, names) == Low(mask, |order|) <==> OwnNames(r, names)
  {
    var back := GetMask(r, names);
    MaskBelow(r, order, names);
    forall t | t in r.nameToMask
      ensures Has(back, r.nameToMask[t]) <==> Named(r, names, t)
      ensures Has(Low(mask, |order|), r.nameToMask[t]) <==> t in names
    {
      MaskHasTag(r, order, names, t);
      var i := PlaceOf(r, order, t);
      HasBit(mask, i);
      HasBit(Low(mask, |order|), i);
    }
    if OwnNames(r, names) {
      SameTags(r, order, back, mask);
    }
  }

  /** So they are given back whenever no name of the list is an alias of another tag. */
  lemma UnaliasedRoundTrip(r: Registry, order: seq<string>, mask: Word, names: seq<string>)
    requires Refines(r, order) && Lists(r, mask, names) && forall n :: n in names ==> Resolve(r, n) == n
    ensures GetMask(r, names) == Low(mask, |order|)
  {
    assert OwnNames(r, names);
    MaskRoundTrip(r, order, mask, names);
  }

  /** A tag answers to its own name exactly when no alias leads that name elsewhere. */
  lemma OwnName(r: Registry, order: seq<string>, tag: string)
    requires Refines(r, order) && tag in r.nameToMask
    ensures GetTag(r, tag) == r.nameToMask[tag] <==> Resolve(r, tag) == tag
  {
    OneName(r, order, tag, tag);
    MasksDisjoint(r, order, tag, tag);
  }

  /** An alias named like another tag hides that tag. */
  lemma AliasHidesTag()
    ensures var ops := [RegisterTag("a", "", ""), RegisterTag("b", "", ""), Alias("a", "b")];
            var r := Run(Empty(), ops);
            "b" in r.nameToMask && r.nameToMask["b"] == {1} && GetTag(r, "b") == {0}
  {
    var ops := [RegisterTag("a", "", ""), RegisterTag("b", "", ""), Alias("a", "b")];
    assert ops[1..] == [ops[1], ops[2]] && ops[1..][1..] == [ops[2]] && ops[1..][1..][1..] == [];
    var r1 := Apply(Empty(), ops[0]);
    ShlBit(0);
    assert r1.next == {1};
    var r3 := Apply(Apply(r1, ops[1]), ops[2]);
    assert Run(r1, ops[1..]) == Run(Apply(r1, ops[1]), ops[1..][1..]);
    assert Run(Apply(r1, ops[1]), ops[1..][1..]) == r3;
  }

  /**
   From names to a mask and back to names: what is printed for the mask of a list is exactly the registered
   tags the list resolves to, with no unnamed bits.
   */
  lemma PrintedMask(r: Registry, order: seq<string>, asked: seq<string>, names: seq<string>, unnamed: Word)
    requires Refines(r, order) && Lists(r, GetMask(r, asked), names)
    requires unnamed == GetMask(r, asked) - Low(GetMask(r, asked), |order|)
    ensures forall t :: t in names <==> t in r.nameToMask && Named(r, asked, t)
    ensures unnamed == {}
  {
    forall t | t in r.nameToMask ensures Has(GetMask(r, asked), r.nameToMask[t]) <==> Named(r, asked, t) {
      MaskHasTag(r, order, asked, t);
    }
    MaskBelow(r, order, asked);
  }

  // ----------------------------------------------------------- the printed form

  /** The number that bits 4i to 4i + 3 make up. */
  function Nibble(w: Word, i: nat): (v: nat)
    ensures v < 16
  {
    (if 4 * i in w then 1 else 0) + (if 4 * i + 1 in w then 2 else 0)
    + (if 4 * i + 2 in w then 4 else 0) + (if 4 * i + 3 in w then 8 else 0)
  }

  function Digit(v: nat): char
    requires v < 16
  {
    if v < 10 then '0' + v as char else 'A' + (v - 10) as char
  }

  /** Digits i to 0. */
  function HexFrom(w: Word, i: nat): (s: string)
    ensures |s| == i + 1 && s[0] == Digit(Nibble(w, i))
  {
    [Digit(Nibble(w, i))] + if i == 0 then [] else HexFrom(w, i - 1)
  }

  /** The first digit of the first i + 1 that is not zero; 0 if there is none. */
  function Top(w: Word, i: nat): (r: nat)
    ensures r <= i && (r > 0 ==> Nibble(w, r) != 0) && forall k :: r < k <= i ==> Nibble(w, k) == 0
  {
    if i == 0 || Nibble(w, i) != 0 then i else Top(w, i - 1)
  }

  /** Digits `last` to 0 without leading zeros. */
  function HexTrimmed(w: Word, last: nat): string { HexFrom(w, Top(w, last)) }

  /** `%llX` */
  function Hex(w: Word): string { HexTrimmed(w, 15) }

  function DigitValue(c: char): int { if '0' <= c <= '9' then c as int - '0' as int else c as int - 'A' as int + 10 }

  function BitOf(v: int, k: nat): int { if k == 0 then v % 2 else if k == 1 then v / 2 % 2 else if k == 2 then v / 4 % 2 else v / 8 % 2 }

  lemma {:induction false} HexFromDigit(w: Word, i: nat, k: nat)
    requires k <= i
    ensures HexFrom(w, i)[i - k] == Digit(Nibble(w, k))
  {
    if k < i {
      HexFromDigit(w, i - 1, k);
      HexFromRest(w, i, i - k);
    }
  }

  lemma HexFromRest(w: Word, i: nat, p: nat)
    requires 0 < p <= i
    ensures HexFrom(w, i)[p] == HexFrom(w, i - 1)[p - 1]
  {
  }

  lemma DigitShows(v: nat)
    requires v < 16
    ensures DigitValue(Digit(v)) == v && (v != 0 ==> Digit(v) != '0')
  {
  }

  lemma NibbleBit(w: Word, i: nat, k: nat)
    requires k < 4
    ensures BitOf(Nibble(w, i), k) == 1 <==> 4 * i + k in w
  {
  }

  /** Bit 4i + k is in the word exactly when digit i from the right has its bit k. */
  predicate Shows(s: string, w: Word, i: nat, k: nat) {
    4 * i + k in w <==> i < |s| && BitOf(DigitValue(s[|s| - 1 - i]), k) == 1
  }

  lemma ShownDigit(s: string, w: Word, i: nat, k: nat)
    requires i < |s| && s[|s| - 1 - i] == Digit(Nibble(w, i)) && k < 4
    ensures Shows(s, w, i, k)
  {
    NibbleBit(w, i, k);
    DigitShows(Nibble(w, i));
  }

  lemma MissingDigit(s: string, w: Word, i: nat, k: nat)
    requires i >= |s| && Nibble(w, i) == 0 && k < 4
    ensures Shows(s, w, i, k)
  {
    NibbleBit(w, i, k);
  }

  lemma TrimmedShows(w: Word, last: nat, i: nat, k: nat)
    requires i <= last && k < 4
    ensures Shows(HexTrimmed(w, last), w, i, k)
  {
    var top := Top(w, last);
    if i <= top {
      HexFromDigit(w, top, i);
      ShownDigit(HexFrom(w, top), w, i, k);
    } else {
      MissingDigit(HexFrom(w, top), w, i, k);
    }
  }

  lemma NoLeadingZero(w: Word, last: nat)
    ensures |HexTrimmed(w, last)| > 1 ==> HexTrimmed(w, last)[0] != '0'
  {
    DigitShows(Nibble(w, Top(w, last)));
  }

  /** The printed number shows every bit of the word and no other, without leading zeros. */
  lemma HexShows(w: Word)
    ensures forall i, k :: 0 <= i < 16 && 0 <= k < 4 ==> Shows(Hex(w), w, i, k)
    ensures |Hex(w)| > 1 ==> Hex(w)[0] != '0'
  {
    forall i, k | 0 <= i < 16 && 0 <= k < 4 ensures Shows(Hex(w), w, i, k) {
      TrimmedShows(w, 15, i, k);
    }
    NoLeadingZero(w, 15);
  }

  /** The names of a walk whose bits are in the mask. */
  function Picked(masks: map<string, Word>, mask: Word, walk: seq<string>): seq<string> {
    if walk == [] then []
    else
      var last := walk[|walk| - 1];
      Picked(masks, mask, walk[..|walk| - 1]) + (if last in masks && Has(mask, masks[last]) then [last] else [])
  }

  lemma PickedSnoc(masks: map<string, Word>, mask: Word, walk: seq<string>, name: string)
    ensures Picked(masks, mask, walk + [name])
         == Picked(masks, mask, walk) + (if name in masks && Has(mask, masks[name]) then [name] else [])
  {
    assert (walk + [name])[..|walk|] == walk;
  }

  lemma {:induction false} PickedFrom(masks: map<string, Word>, mask: Word, walk: seq<string>)
    requires Distinct(walk)
    ensures Distinct(Picked(masks, mask, walk))
    ensures forall n :: n in Picked(masks, mask, walk) <==> n in walk && n in masks && Has(mask, masks[n])
    decreases |walk|
  {
    if walk != [] {
      var front, last := walk[..|walk| - 1], walk[|walk| - 1];
      PickedFrom(masks, mask, front);
      assert forall n :: n in walk <==> n in front || n == last;
    }
  }

  lemma {:induction false} NonePicked(masks: map<string, Word>, walk: seq<string>)
    ensures Picked(masks, {}, walk) == []
    decreases |walk|
  {
    if walk != [] {
      NonePicked(masks, walk[..|walk| - 1]);
    }
  }

  /** For every walk over the tags, the names picked are exactly those of the tags in the mask, each once. */
  lemma PickedLists(r: Registry, mask: Word, walk: seq<string>)
    requires Walks(r.tags, walk) && r.tags.Keys == r.nameToMask.Keys
    ensures Distinct(Picked(r.nameToMask, mask, walk)) && Lists(r, mask, Picked(r.nameToMask, mask, walk))
  {
    PickedFrom(r.nameToMask, mask, walk);
  }

  /** A part is set off by a plus sign unless nothing was written before. */
  function Append(text: string, part: string): string { if text == "" then part else text + "+" + part }

  function Joined(names: seq<string>): string {
    if names == [] then "" else Append(Joined(names[..|names| - 1]), names[|names| - 1])
  }

  function Text(names: seq<string>, unnamed: Word): string {
    if unnamed == {} then Joined(names) else Append(Joined(names), "0x" + Hex(unnamed))
  }

  // ------------------------------------------------------- reading the text back

  predicate PlusFree(s: string) { forall i :: 0 <= i < |s| ==> s[i] != '+' }

  /** The text between plus signs. */
  function Parts(text: string): (r: seq<string>)
    ensures |r| >= 1
  {
    if text == "" then [""]
    else
      var front, c := Parts(text[..|text| - 1]), text[|text| - 1];
      if c == '+' then front + [""] else Extend(front, [c])
  }

  /** The last part goes on. */
  function Extend(parts: seq<string>, p: string): (r: seq<string>)
    requires |parts| >= 1
    ensures |r| == |parts|
  {
    parts[..|parts| - 1] + [parts[|parts| - 1] + p]
  }

  lemma ExtendTwice(parts: seq<string>, p: string, c: char)
    requires |parts| >= 1
    ensures Extend(parts, "") == parts && Extend(Extend(parts, p), [c]) == Extend(parts, p + [c])
  {
    assert parts[|parts| - 1] + "" == parts[|parts| - 1];
    assert parts == parts[..|parts| - 1] + [parts[|parts| - 1]];
    assert (parts[|parts| - 1] + p) + [c] == parts[|parts| - 1] + (p + [c]);
  }

  lemma PartsSnoc(text: string, c: char)
    ensures Parts(text + [c]) == if c == '+' then Parts(text) + [""] else Extend(Parts(text), [c])
  {
    assert (text + [c])[..|text|] == text;
  }

  lemma SnocAgain(text: string, q: string, c: char)
    ensures text + (q + [c]) == (text + q) + [c]
  {
  }

  lemma PartsStep(text: string, q: string, c: char)
    requires c != '+' && Parts(text + q) == Extend(Parts(text), q)
    ensures Parts(text + (q + [c])) == Extend(Parts(text), q + [c])
  {
    SnocAgain(text, q, c);
    PartsSnoc(text + q, c);
    ExtendTwice(Parts(text), q, c);
  }

  lemma PartsNone(text: string)
    ensures Parts(text + "") == Extend(Parts(text), "")
  {
    ExtendTwice(Parts(text), "", 'x');
    assert text + "" == text;
  }

  lemma Snoc(p: string) returns (q: string, c: char)
    requires p != ""
    ensures p == q + [c] && |q| < |p|
  {
    q, c := p[..|p| - 1], p[|p| - 1];
  }

  lemma {:induction false} PartsExtend(text: string, p: string)
    requires PlusFree(p)
    ensures Parts(text + p) == Extend(Parts(text), p)
    decreases |p|
  {
    if p == "" {
      PartsNone(text);
    } else {
      var q, c := Snoc(p);
      assert PlusFree(q) && c != '+' by {
        assert c == p[|q|];
        assert forall i :: 0 <= i < |q| ==> q[i] == p[i];
      }
      PartsExtend(text, q);
      PartsStep(text, q, c);
    }
  }

  /** A part after a plus sign. */
  lemma PartsAfterPlus(text: string, p: string)
    requires PlusFree(p)
    ensures Parts(text + "+" + p) == Parts(text) + [p]
  {
    PartsSnoc(text, '+');
    PartsExtend(text + "+", p);
    assert "" + p == p;
  }

  lemma PartsOfOne(p: string)
    requires PlusFree(p)
    ensures Parts(p) == [p]
  {
    PartsExtend("", p);
    assert "" + p == p;
  }

  predicate Readable(names: seq<string>) { forall i :: 0 <= i < |names| ==> names[i] != "" && PlusFree(names[i]) }

  lemma {:induction false} JoinedParts(names: seq<string>)
    requires Readable(names) && names != []
    ensures Joined(names) != "" && Parts(Joined(names)) == names
    decreases |names|
  {
    var front, last := names[..|names| - 1], names[|names| - 1];
    assert names == front + [last];
    if front == [] {
      PartsOfOne(last);
    } else {
      JoinedParts(front);
      PartsAfterPlus(Joined(front), last);
    }
  }

  predicate HexDigit(c: char) { '0' <= c <= '9' || 'A' <= c <= 'F' }

  lemma {:induction false} HexFromDigits(w: Word, i: nat)
    ensures forall k :: 0 <= k <= i ==> HexDigit(HexFrom(w, i)[k])
  {
    if i > 0 {
      HexFromDigits(w, i - 1);
      forall k | 0 <= k <= i ensures HexDigit(HexFrom(w, i)[k]) {
        if k > 0 {
          HexFromRest(w, i, k);
        }
      }
    }
  }

  lemma HexIsPlusFree(w: Word)
    ensures (forall k :: 0 <= k < |Hex(w)| ==> HexDigit(Hex(w)[k])) && PlusFree("0x" + Hex(w))
  {
    HexFromDigits(w, Top(w, 15));
  }

  lemma AppendParts(names: seq<string>, p: string)
    requires Readable(names) && PlusFree(p)
    ensures Parts(Append(Joined(names), p)) == names + [p]
  {
    if names == [] {
      PartsOfOne(p);
    } else {
      JoinedParts(names);
      PartsAfterPlus(Joined(names), p);
    }
  }

  /** The text can be read back: with names that are not empty and hold no plus sign its parts are the names, in order,
      and then the bits no tag has, if any. */
  lemma TextParts(names: seq<string>, unnamed: Word)
    requires Readable(names) && (names != [] || unnamed != {})
    ensures Parts(Text(names, unnamed)) == if unnamed == {} then names else names + ["0x" + Hex(unnamed)]
  {
    if unnamed == {} {
      JoinedParts(names);
    } else {
      HexIsPlusFree(unnamed);
      AppendParts(names, "0x" + Hex(unnamed));
    }
  }

  // ------------------------------------------------- what each call answers

  /** A name not yet registered is entered with its description and category under the next bit, unless all are taken;
      nothing else changes. */
  lemma RegisterAnswer(r: Registry, order: seq<string>, name: string, description: string, category: string)
    requires Refines(r, order)
    ensures var after := Register(r, name, description, category);
            if name in r.tags || |order| == 64 then after == r
            else
              && after.tags == r.tags[name := Info(name, description, category, [], {|order|})]
              && after.nameToMask == r.nameToMask[name := {|order|}] && after.aliases == r.aliases
  {
    FullWhenZero(r, order);
  }

  /** An alias of a registered tag leads to it from then on, whatever the alias meant before, and is listed with it;
      every other name resolves as it did. One of an unknown tag changes nothing. */
  lemma AliasAnswer(r: Registry, tag: string, alias: string)
    ensures var after := AddAlias(r, tag, alias);
            && (tag !in r.tags ==> after == r)
            && (tag in r.tags ==>
                  && Resolve(after, alias) == tag && (forall n :: n != alias ==> Resolve(after, n) == Resolve(r, n))
                  && after.tags == r.tags[tag := r.tags[tag].(aliases := r.tags[tag].aliases + [alias])]
                  && after.nameToMask == r.nameToMask && after.next == r.next)
    ensures Resolve(Empty(), alias) == alias
  {
  }

  // ---------------------------------------------------------------- the class

  /** The bits collected from the tags visited so far. */
  ghost predicate Collected(masks: map<string, Word>, visited: seq<string>, mask: Word, named: Word) {
    forall t :: t in masks ==> (Has(named, masks[t]) <==> t in visited && Has(mask, masks[t]))
  }

  /** An order in which the unordered tag map may be walked. */
  ghost predicate Walks(tags: map<string, Info>, walk: seq<string>) {
    Distinct(walk) && forall n :: n in walk <==> n in tags
  }

  lemma CollectTake(r: Registry, order: seq<string>, visited: seq<string>, mask: Word, named: Word, tag: string)
    requires Refines(r, order) && Collected(r.nameToMask, visited, mask, named)
    requires tag in r.nameToMask && Has(mask, r.nameToMask[tag])
    ensures Collected(r.nameToMask, visited + [tag], mask, named + r.nameToMask[tag])
  {
    forall t | t in r.nameToMask
      ensures Has(named + r.nameToMask[tag], r.nameToMask[t]) <==> t in visited + [tag] && Has(mask, r.nameToMask[t])
    {
      OrTests(named, r.nameToMask[tag], r.nameToMask[t]);
      MasksDisjoint(r, order, tag, t);
    }
  }

  /** One tag visited: its bits are added if the mask has them. */
  lemma CollectStep(r: Registry, order: seq<string>, visited: seq<string>, mask: Word, named: Word, tag: string)
    requires Refines(r, order) && tag in r.nameToMask
    requires Collected(r.nameToMask, visited, mask, named) && Low(named, |order|) == named
    ensures var after := if Has(mask, r.nameToMask[tag]) then named + r.nameToMask[tag] else named;
            Collected(r.nameToMask, visited + [tag], mask, after) && Low(after, |order|) == after
  {
    if Has(mask, r.nameToMask[tag]) {
      var i := PlaceOf(r, order, tag);
      CollectTake(r, order, visited, mask, named, tag);
    }
  }

  /** Once all tags are visited the named bits are exactly the bits that some tag has. */
  lemma CollectEnd(r: Registry, order: seq<string>, walk: seq<string>, mask: Word, named: Word)
    requires Refines(r, order) && Collected(r.nameToMask, walk, mask, named) && Walks(r.tags, walk)
    requires Low(named, |order|) == named
    ensures named == Low(mask, |order|)
  {
    SameTags(r, order, named, mask);
  }

  class Tags {
    var tags: map<string, Info>
    var nameToMask: map<string, Word>
    var aliases: map<string, string>
    var nextBitMask: Word
    /** The tags in the order of their bits. */
    ghost var order: seq<string>

    ghost function State(): Registry
      reads this
    {
      Registry(tags, nameToMask, aliases, nextBitMask)
    }

    ghost predicate Valid()
      reads this
    {
      Refines(State(), order)
    }

    constructor ()
      ensures Valid() && State() == Empty() && order == []
    {
      tags, nameToMask, aliases, nextBitMask, order := map[], map[], map[], {0}, [];
    }

    method RegisterTag(name: string, description: string, category: string)
      requires Valid()
      modifies this
      ensures Valid() && order == Accept(old(order), name)
      ensures State() == Register(old(State()), name, description, category)
    {
      RegisterRefines(State(), order, name, description, category);
      order := Accept(order, name);
      if name in tags {
        return;
      }
      if nextBitMask == {} {
        return;
      }
      tags := tags[name := Info(name, description, category, [], nextBitMask)];
      nameToMask := nameToMask[name := nextBitMask];
      nextBitMask := Shl(nextBitMask);
    }

    method AddTagAlias(tag: string, alias: string)
      requires Valid()
      modifies this
      ensures Valid() && order == old(order)
      ensures State() == AddAlias(old(State()), tag, alias)
    {
      AliasRefines(State(), order, tag, alias);
      if tag !in tags {
        return;
      }
      aliases := aliases[alias := tag];
      var info := tags[tag];
      tags := tags[tag := info.(aliases := info.aliases + [alias])];
    }

    method TagOf(name: string) returns (mask: Word)
      requires Valid()
      ensures mask == GetTag(State(), name)
    {
      var resolved := if name in aliases then aliases[name] else name;
      if resolved !in nameToMask {
        return {};
      }
      mask := nameToMask[resolved];
    }

    /** A tag's bit is in the mask exactly when some name of the list resolves to the tag. */
    method MaskOf(names: seq<string>) returns (mask: Word)
      requires Valid()
      ensures mask == GetMask(State(), names) && Low(mask, |order|) == mask
      ensures forall t :: t in nameToMask ==> (Has(mask, nameToMask[t]) <==> Named(State(), names, t))
    {
      mask := {};
      for i := 0 to |names|
        invariant mask == GetMask(State(), names[..i])
      {
        var one := TagOf(names[i]);
        assert names[..i + 1][..i] == names[..i];
        mask := mask + one;
      }
      assert names[..|names|] == names;
      MaskBelow(State(), order, names);
      forall t | t in nameToMask ensures Has(mask, nameToMask[t]) <==> Named(State(), names, t) {
        MaskHasTag(State(), order, names, t);
      }
    }

    /**
     What mask_to_string writes, for every order in which the map may be walked: the names of the tags in the
     mask, and then the bits no tag has.
     */
    method MaskToString(mask: Word, walk: seq<string>) returns (text: string)
      requires Valid() && Walks(tags, walk)
      ensures text == Text(Picked(nameToMask, mask, walk), mask - Low(mask, |order|))
    {
      text := "";
      if mask == {} {
        NonePicked(nameToMask, walk);
        return;
      }
      var named: Word := {};
      for i := 0 to |walk|
        invariant text == Joined(Picked(nameToMask, mask, walk[..i]))
        invariant Low(named, |order|) == named && Collected(nameToMask, walk[..i], mask, named)
      {
        assert walk[..i + 1] == walk[..i] + [walk[i]];
        text, named := Visit(walk[i], walk[..i], mask, text, named);
      }
      assert walk[..|walk|] == walk;
      CollectEnd(State(), order, walk, mask, named);
      text := WriteRest(Picked(nameToMask, mask, walk), mask - named, text);
    }

    /** The bits no tag has. */
    method WriteRest(ghost names: seq<string>, unnamed: Word, named: string) returns (text: string)
      requires named == Joined(names)
      ensures text == Text(names, unnamed)
    {
      text := named;
      if unnamed != {} {
        text := Append(text, "0x" + Hex(unnamed));
      }
    }

    /** One pass of the loop. */
    method Visit(name: string, ghost visited: seq<string>, mask: Word, text: string, named: Word)
      returns (text': string, named': Word)
      requires Valid() && name in tags && text == Joined(Picked(nameToMask, mask, visited))
      requires Low(named, |order|) == named && Collected(nameToMask, visited, mask, named)
      ensures text' == Joined(Picked(nameToMask, mask, visited + [name]))
      ensures Low(named', |order|) == named' && Collected(nameToMask, visited + [name], mask, named')
    {
      CollectStep(State(), order, visited, mask, named, name);
      JoinedPicked(nameToMask, mask, visited, name);
      if Has(mask, tags[name].mask) {
        text', named' := Append(text, name), named + tags[name].mask;
      } else {
        text', named' := text, named;
      }
    }
  }

  lemma JoinedPicked(masks: map<string, Word>, mask: Word, walk: seq<string>, name: string)
    requires name in masks
    ensures Joined(Picked(masks, mask, walk + [name])) ==
      if Has(mask, masks[name]) then Append(Joined(Picked(masks, mask, walk)), name) else Joined(Picked(masks, mask, walk))
  {
    PickedSnoc(masks, mask, walk, name);
    var names := Picked(masks, mask, walk);
    assert (names + [name])[..|names|] == names && names + [] == names;
  }
}
