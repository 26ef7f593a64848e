/** The three numbers packed above the flag bits of page->flags, for every word size and every choice of field
    widths. A machine word is the sequence of its bits, the lowest first. */
module PageFlags {

  type Word = seq<bool>

  function And(x: Word, y: Word): Word
    requires |x| == |y|
  {
    seq(|x|, i requires 0 <= i < |x| => x[i] && y[i])
  }

  function Or(x: Word, y: Word): Word
    requires |x| == |y|
  {
    seq(|x|, i requires 0 <= i < |x| => x[i] || y[i])
  }

  function Not(x: Word): Word { seq(|x|, i requires 0 <= i < |x| => !x[i]) }

  function Shl(x: Word, n: nat): Word { seq(|x|, i requires 0 <= i < |x| => i >= n && x[i - n]) }

  function Shr(x: Word, n: nat): Word { seq(|x|, i requires 0 <= i < |x| => i + n < |x| && x[i + n]) }

  /** (1 << width) - 1 */
  function Mask(width: nat, long: nat): Word { seq(long, i => i < width) }

  /** A build: bits in a word and how many of them are reserved, the width of the section field (zero without
      sparsemem) and of the zone field, the bits a node number needs, and the low bits of a page frame number
      that fall inside one section. */
  datatype Build = Build(long: nat, reserved: nat, sections: nat, zones: nat, nodesShift: nat, sectionShift: nat)

  /** The node number is left out when there is no room for it. */
  function NodesWidth(b: Build): nat
  {
    if b.sections + b.zones + b.nodesShift <= b.reserved then b.nodesShift else 0
  }

  /** Anything else stops at an #error. */
  predicate Compiles(b: Build)
  {
    && ((b.long == 32 && b.reserved == 9) || (b.long == 64 && b.reserved == 32))
    && b.sections + NodesWidth(b) + b.zones <= b.reserved
  }

  datatype Field = Field(width: nat, shift: nat)

  /** Fields that do not exist are given shift 0. */
  function Make(width: nat, off: nat): Field { Field(width, if width != 0 then off else 0) }

  function Sections(b: Build): Field
    requires Compiles(b)
  {
    Make(b.sections, b.long - b.sections)
  }

  function Nodes(b: Build): Field
    requires Compiles(b)
  {
    Make(NodesWidth(b), b.long - b.sections - NodesWidth(b))
  }

  function Zones(b: Build): Field
    requires Compiles(b)
  {
    Make(b.zones, b.long - b.sections - NodesWidth(b) - b.zones)
  }

  /** page_zonenum, page_to_nid, page_to_section */
  function Get(flags: Word, f: Field): (r: Word)
    ensures |r| == |flags|
  {
    And(Shr(flags, f.shift), Mask(f.width, |flags|))
  }

  /** The two assignments of a setter. */
  function Set(flags: Word, f: Field, v: Word): (r: Word)
    requires |flags| == |v|
    ensures |r| == |flags|
  {
    var cleared := And(flags, Not(Shl(Mask(f.width, |flags|), f.shift)));
    Or(cleared, Shl(And(v, Mask(f.width, |flags|)), f.shift))
  }

  class Page {
    var flags: Word

    /** One field is replaced and reads back what fits of v; every other bit stays. */
    method Put(f: Field, v: Word)
      requires |v| == |flags|
      modifies this
      ensures |flags| == |old(flags)|
      ensures forall i :: 0 <= i < |flags| ==> flags[i] == if In(f, i) then v[i - f.shift] else old(flags)[i]
      ensures f.shift + f.width <= |flags| ==> Get(flags, f) == And(v, Mask(f.width, |flags|))
      ensures flags == Set(old(flags), f, v)
    {
      hide Get;
      if f.shift + f.width <= |flags| {
        GetSet(flags, f, v);
      }
      flags := And(flags, Not(Shl(Mask(f.width, |flags|), f.shift)));
      flags := Or(flags, Shl(And(v, Mask(f.width, |flags|)), f.shift));
    }

    /** set_page_links: all three numbers read back as they were given, cut to their fields, and no other bit
        has changed. */
    method SetLinks(b: Build, zone: Word, node: Word, pfn: Word)
      requires Compiles(b) && |flags| == |zone| == |node| == |pfn| == b.long
      modifies this
      ensures |flags| == b.long
      ensures Get(flags, Zones(b)) == And(zone, Mask(b.zones, b.long))
      ensures b.sections + b.zones + b.nodesShift <= b.reserved ==>
                Get(flags, Nodes(b)) == And(node, Mask(b.nodesShift, b.long))
      ensures b.sections + b.zones + b.nodesShift > b.reserved ==> true !in Get(flags, Nodes(b))
      ensures Get(flags, Sections(b)) == And(Shr(pfn, b.sectionShift), Mask(b.sections, b.long))
      ensures forall i :: 0 <= i < b.long && !InAny(b, i) ==> flags[i] == old(flags)[i]
    {
      var section := Shr(pfn, b.sectionShift);
      LinksReadBack(b, flags, zone, node, section);
      Put(Zones(b), zone);
      Put(Nodes(b), node);
      Put(Sections(b), section);
    }
  }

  // ---- bit by bit ----

  predicate In(f: Field, i: int) { f.shift <= i < f.shift + f.width }

  predicate InAny(b: Build, i: int)
    requires Compiles(b)
  {
    In(Zones(b), i) || In(Nodes(b), i) || In(Sections(b), i)
  }

  predicate Apart(f: Field, g: Field)
  {
    f.width == 0 || g.width == 0 || f.shift + f.width <= g.shift || g.shift + g.width <= f.shift
  }

  lemma SetAt(flags: Word, f: Field, v: Word, i: nat)
    requires |flags| == |v| && i < |flags|
    ensures Set(flags, f, v)[i] == if In(f, i) then v[i - f.shift] else flags[i]
  {
  }

  lemma GetAt(flags: Word, f: Field, i: nat)
    requires i < |flags| && f.shift + f.width <= |flags|
    ensures Get(flags, f)[i] == (i < f.width && flags[i + f.shift])
  {
  }

  /** A number put into a field reads back, cut to the field. */
  lemma GetSet(flags: Word, f: Field, v: Word)
    requires |flags| == |v| && f.shift + f.width <= |flags|
    ensures Get(Set(flags, f, v), f) == And(v, Mask(f.width, |flags|))
  {
  }

  /** Setting one field leaves what another one reads. */
  lemma GetOther(flags: Word, f: Field, g: Field, v: Word)
    requires |flags| == |v| && g.shift + g.width <= |flags| && Apart(f, g)
    ensures Get(Set(flags, f, v), g) == Get(flags, g)
  {
  }

  lemma SetsCommute(flags: Word, f: Field, g: Field, v: Word, w: Word)
    requires |flags| == |v| == |w| && Apart(f, g)
    ensures Set(Set(flags, f, v), g, w) == Set(Set(flags, g, w), f, v)
  {
  }

  // ---- the layout ----

  /** In every build that compiles the three fields fit, lie apart, and stay within the reserved top bits. */
  lemma LayoutIsSound(b: Build)
    requires Compiles(b)
    ensures var s, n, z := Sections(b), Nodes(b), Zones(b);
            && Apart(s, n) && Apart(s, z) && Apart(n, z)
            && s.shift + s.width <= b.long && n.shift + n.width <= b.long && z.shift + z.width <= b.long
            && forall i :: InAny(b, i) ==> b.long - b.reserved <= i < b.long
  {
  }

  /** The layout as it is drawn: from the top, the section number, the node number if there is room for it, and the
      zone number, with nothing in between. */
  lemma LayoutAsDrawn(b: Build, i: nat)
    requires Compiles(b) && i < b.long
    ensures var top := b.long - b.sections;
            var mid := if b.sections + b.zones + b.nodesShift <= b.reserved then top - b.nodesShift else top;
            && (In(Sections(b), i) <==> top <= i)
            && (In(Nodes(b), i) <==> mid <= i < top)
            && (In(Zones(b), i) <==> mid - b.zones <= i < mid)
  {
  }

  function Linked(flags: Word, b: Build, zone: Word, node: Word, section: Word): (r: Word)
    requires Compiles(b) && |flags| == |zone| == |node| == |section|
    ensures |r| == |flags|
  {
    Set(Set(Set(flags, Zones(b), zone), Nodes(b), node), Sections(b), section)
  }

  lemma LinksReadBack(b: Build, flags: Word, zone: Word, node: Word, section: Word)
    requires Compiles(b) && |flags| == |zone| == |node| == |section| == b.long
    ensures var r := Linked(flags, b, zone, node, section);
            && Get(r, Zones(b)) == And(zone, Mask(b.zones, b.long))
            && (b.sections + b.zones + b.nodesShift <= b.reserved ==>
                  Get(r, Nodes(b)) == And(node, Mask(b.nodesShift, b.long)))
            && (b.sections + b.zones + b.nodesShift > b.reserved ==> true !in Get(r, Nodes(b)))
            && Get(r, Sections(b)) == And(section, Mask(b.sections, b.long))
            && forall i :: 0 <= i < b.long && !InAny(b, i) ==> r[i] == flags[i]
  {
    hide Set, Get, Mask, And;
    LayoutIsSound(b);
    var z, n, s := Zones(b), Nodes(b), Sections(b);
    var r1 := Set(flags, z, zone);
    var r2 := Set(r1, n, node);
    GetSet(flags, z, zone);
    GetSet(r1, n, node);
    GetSet(r2, s, section);
    GetOther(r1, n, z, node);
    GetOther(r2, s, z, section);
    GetOther(r2, s, n, section);
    if n.width == 0 {
      NoWidth(Set(r2, s, section), n, node);
    }
    forall i | 0 <= i < b.long && !InAny(b, i) ensures Set(r2, s, section)[i] == flags[i] {
      SetAt(flags, z, zone, i);
      SetAt(r1, n, node, i);
      SetAt(r2, s, section, i);
    }
  }

  /** The order of the three setters does not matter. */
  lemma LinksInAnyOrder(b: Build, flags: Word, zone: Word, node: Word, section: Word)
    requires Compiles(b) && |flags| == |zone| == |node| == |section|
    ensures var r := Linked(flags, b, zone, node, section); var z, n, s := Zones(b), Nodes(b), Sections(b);
            && r == Set(Set(Set(flags, z, zone), s, section), n, node)
            && r == Set(Set(Set(flags, n, node), z, zone), s, section)
            && r == Set(Set(Set(flags, n, node), s, section), z, zone)
            && r == Set(Set(Set(flags, s, section), z, zone), n, node)
            && r == Set(Set(Set(flags, s, section), n, node), z, zone)
  {
    hide Set;
    LayoutIsSound(b);
    var z, n, s := Zones(b), Nodes(b), Sections(b);
    SetsCommute(Set(flags, z, zone), n, s, node, section);
    SetsCommute(flags, n, z, node, zone);
    SetsCommute(Set(flags, n, node), z, s, zone, section);
    SetsCommute(flags, s, z, section, zone);
    SetsCommute(flags, s, n, section, node);
  }

  /** A field of no width reads zero, and setting it changes nothing. */
  lemma NoWidth(flags: Word, f: Field, v: Word)
    requires |flags| == |v| && f.width == 0
    ensures Set(flags, f, v) == flags && true !in Get(flags, f)
  {
  }

  // ---- identifying a zone ----

  /** The macro that should say SECTION:ZONE is tested under a name nobody defines, so this is always taken. */
  function ZoneIdWidth(b: Build): nat { b.nodesShift + b.zones }

  function ZoneIdShift(b: Build): nat
    requires Compiles(b)
  {
    if b.zones > 0 then Zones(b).shift else b.long - b.sections - NodesWidth(b)
  }

  /** page_zone_id */
  function ZoneId(flags: Word, b: Build): Word
    requires Compiles(b) && |flags| == b.long
  {
    And(Shr(flags, ZoneIdShift(b)), Mask(ZoneIdWidth(b), b.long))
  }

  ghost predicate Agree(x: Word, y: Word, from: nat, to: int)
    requires |x| == |y|
  {
    forall i :: from <= i < to && i < |x| ==> x[i] == y[i]
  }

  lemma SameGet(x: Word, y: Word, f: Field)
    requires |x| == |y| && f.shift + f.width <= |x|
    ensures Get(x, f) == Get(y, f) <==> Agree(x, y, f.shift, f.shift + f.width)
  {
    hide Get;
    forall i | 0 <= i < |x|
      ensures Get(x, f)[i] == (i < f.width && x[i + f.shift]) && Get(y, f)[i] == (i < f.width && y[i + f.shift])
    {
      GetAt(x, f, i);
      GetAt(y, f, i);
    }
    if Get(x, f) == Get(y, f) {
      forall i | f.shift <= i < f.shift + f.width ensures x[i] == y[i] {
        assert Get(x, f)[i - f.shift] == Get(y, f)[i - f.shift];
      }
    }
    if Agree(x, y, f.shift, f.shift + f.width) {
      assert Get(x, f) == Get(y, f);
    }
  }

  lemma SameZoneId(x: Word, y: Word, b: Build)
    requires Compiles(b) && |x| == |y| == b.long
    ensures ZoneId(x, b) == ZoneId(y, b)
            <==> Agree(x, y, ZoneIdShift(b), ZoneIdShift(b) + ZoneIdWidth(b))
  {
    var s, w := ZoneIdShift(b), ZoneIdWidth(b);
    if ZoneId(x, b) == ZoneId(y, b) {
      forall i | s <= i < s + w && i < b.long ensures x[i] == y[i] {
        assert ZoneId(x, b)[i - s] == x[i] && ZoneId(y, b)[i - s] == y[i];
      }
    }
    if Agree(x, y, s, s + w) {
      assert ZoneId(x, b) == ZoneId(y, b);
    }
  }

  /** With the node number in the flags, the id is NODE:ZONE. */
  lemma ZoneIdIsNodeAndZone(x: Word, y: Word, b: Build)
    requires Compiles(b) && |x| == |y| == b.long && NodesWidth(b) == b.nodesShift
    ensures ZoneId(x, b) == ZoneId(y, b)
            <==> Get(x, Zones(b)) == Get(y, Zones(b)) && Get(x, Nodes(b)) == Get(y, Nodes(b))
  {
    hide ZoneId, Get;
    LayoutIsSound(b);
    SameZoneId(x, y, b);
    SameGet(x, y, Zones(b));
    SameGet(x, y, Nodes(b));
  }

  /** Without it the id is documented as SECTION:ZONE. It is that exactly when the section field is no wider than
      the node number that found no room: only so many of its bits are looked at. */
  lemma ZoneIdIsSectionAndZoneExactly(b: Build)
    requires Compiles(b) && NodesWidth(b) != b.nodesShift
    ensures (forall x: Word, y: Word :: |x| == |y| == b.long ==>
               (ZoneId(x, b) == ZoneId(y, b)
                <==> Get(x, Zones(b)) == Get(y, Zones(b)) && Get(x, Sections(b)) == Get(y, Sections(b))))
            <==> b.sections <= b.nodesShift
  {
    hide ZoneId, Get;
    LayoutIsSound(b);
    forall x: Word, y: Word | |x| == |y| == b.long
      ensures ZoneId(x, b) == ZoneId(y, b)
              <==> Agree(x, y, ZoneIdShift(b), ZoneIdShift(b) + ZoneIdWidth(b))
      ensures Get(x, Zones(b)) == Get(y, Zones(b)) && Get(x, Sections(b)) == Get(y, Sections(b))
              <==> Agree(x, y, b.long - b.sections - b.zones, b.long)
    {
      SameZoneId(x, y, b);
      SameGet(x, y, Zones(b));
      SameGet(x, y, Sections(b));
    }
    if b.sections > b.nodesShift {
      var x, y := TopBitUnseen(b);
      assert !Agree(x, y, b.long - b.sections - b.zones, b.long);
    }
  }

  /** Six section bits, two zone bits and a node number of four bits that finds no room: pages of sections 0 and
      32 have the same id. */
  lemma SectionsConfused()
    ensures var b := Build(32, 9, 6, 2, 4, 14);
            var x, y := seq(32, _ => false), seq(32, i => i == 31);
            && Compiles(b) && NodesWidth(b) == 0
            && ZoneId(x, b) == ZoneId(y, b) && Get(x, Sections(b)) != Get(y, Sections(b))
  {
    var b := Build(32, 9, 6, 2, 4, 14);
    var x: Word, y: Word := seq(32, _ => false), seq(32, i => i == 31);
    assert ZoneId(x, b) == ZoneId(y, b);
    assert Get(x, Sections(b))[5] != Get(y, Sections(b))[5];
  }

  lemma TopBitUnseen(b: Build) returns (x: Word, y: Word)
    requires Compiles(b) && NodesWidth(b) != b.nodesShift && b.sections > b.nodesShift
    ensures |x| == |y| == b.long
    ensures Agree(x, y, ZoneIdShift(b), ZoneIdShift(b) + ZoneIdWidth(b))
    ensures !Agree(x, y, b.long - b.sections - b.zones, b.long)
  {
    x := seq(b.long, _ => false);
    y := x[b.long - 1 := true];
    assert x[b.long - 1] != y[b.long - 1];
  }
}
