/** Page tables and physical memory, as far as fork and the loader use them. */
module Paging {

  const PGSIZE := 0x1000
  const ENTRIES := 512
  const PTSIZE := 0x20_0000
  const USERBASE := 0x20_0000
  const USERTOP := 0x8000_0000

  /** The number of pages below USERTOP. */
  const USERPAGES := 0x8_0000

  type Byte = b: nat | b < 256

  type Page = s: seq<Byte> | |s| == PGSIZE witness seq(PGSIZE, _ => 0)

  /** A page-table entry: the permission bits V, R, W, X, U, the remaining flag
      bits, and the frame it points to. */
  datatype Pte = Pte(v: bool, r: bool, w: bool, x: bool, u: bool, rest: nat, frame: nat)

  const EMPTY_PTE := Pte(false, false, false, false, false, 0, 0)

  /** The permissions that the mask PTE_USER selects. */
  datatype Perm = Perm(r: bool, w: bool, x: bool, u: bool)

  function UserPerm(p: Pte): Perm
  {
    Perm(p.r, p.w, p.x, p.u)
  }

  /** The entry that page_insert writes. */
  function MakePte(frame: nat, perm: Perm): Pte
  {
    Pte(true, perm.r, perm.w, perm.x, perm.u, 0, frame)
  }

  /** The valid entries of an address space, by page number. */
  type Space = map<nat, Pte>

  /** The contents of the frames in use. */
  type Frames = map<nat, Page>

  predicate UserAccess(start: nat, end: nat)
  {
    USERBASE <= start < end <= USERTOP
  }

  function RoundDown(a: nat, n: nat): (r: nat)
    requires n > 0
    ensures r <= a < r + n && r == (a / n) * n
  {
    DivMod(a, n);
    (a / n) * n
  }

  lemma DivMod(a: nat, n: nat)
    requires n > 0
    ensures 0 <= (a / n) * n <= a < (a / n) * n + n
  {
    assert a == (a / n) * n + a % n;
  }

  class PhysMem {
    var frames: Frames

    constructor ()
      ensures frames == map[]
    {
      frames := map[];
    }

    /** Some frame that is not in use; its contents are whatever they are. */
    method AllocPage() returns (frame: nat)
      modifies this
      ensures frame !in old(frames) && frame in frames && frames == old(frames)[frame := frames[frame]]
    {
      UnusedExists(frames.Keys);
      frame :| frame !in frames;
      var contents: Page := *;
      frames := frames[frame := contents];
    }

    method FreePages(freed: set<nat>)
      modifies this
      ensures frames == old(frames) - freed
    {
      frames := frames - freed;
    }

    /** memcpy of a whole frame. */
    method CopyPage(dst: nat, src: nat)
      requires dst in frames && src in frames
      modifies this
      ensures frames == old(frames)[dst := old(frames)[src]]
    {
      frames := frames[dst := frames[src]];
    }

    /** memcpy or memset within one frame. */
    method Fill(frame: nat, off: nat, bytes: seq<Byte>)
      requires frame in frames && off + |bytes| <= PGSIZE
      modifies this
      ensures frames == old(frames)[frame := Patch(old(frames)[frame], off, bytes)]
    {
      frames := frames[frame := Patch(frames[frame], off, bytes)];
    }
  }

  function Patch(page: Page, off: nat, bytes: seq<Byte>): (r: Page)
    requires off + |bytes| <= PGSIZE
    ensures forall i :: 0 <= i < PGSIZE ==> r[i] == if off <= i < off + |bytes| then bytes[i - off] else page[i]
  {
    page[..off] + bytes + page[off + |bytes|..]
  }

  lemma {:induction false} UnusedExists(s: set<nat>)
    ensures exists n: nat :: n !in s
  {
    var bound := UpperBound(s);
    assert bound !in s;
  }

  lemma {:induction false} UpperBound(s: set<nat>) returns (bound: nat)
    ensures forall n :: n in s ==> n < bound
  {
    if s == {} {
      bound := 0;
    } else {
      var x :| x in s;
      var b := UpperBound(s - {x});
      bound := if b > x then b else x + 1;
      assert forall n :: n in s ==> n == x || n in s - {x};
    }
  }

  class PageDir {
    /** One table of 512 entries for every PTSIZE block that has one. */
    var tables: map<nat, seq<Pte>>

    ghost predicate Valid()
      reads this
    {
      forall b :: b in tables ==> |tables[b]| == ENTRIES
    }

    /** The entry of a page; in a block without a table it is empty. */
    ghost function Entry(n: nat): Pte
      requires Valid()
      reads this
    {
      if n / ENTRIES in tables then tables[n / ENTRIES][n % ENTRIES] else EMPTY_PTE
    }

    ghost function View(): Space
      requires Valid()
      reads this
    {
      map n: nat | n < USERPAGES && Entry(n).v :: Entry(n)
    }

    constructor ()
      ensures Valid() && View() == map[] && tables == map[]
    {
      tables := map[];
    }

    /** get_pte without creation: null exactly when the block has no table, and
        then no page of the block is mapped. */
    method GetPte(la: nat) returns (found: bool, pte: Pte)
      requires Valid() && la < USERTOP
      ensures found <==> la / PGSIZE / ENTRIES in tables
      ensures pte.v <==> la / PGSIZE in View()
      ensures pte.v ==> found && pte == View()[la / PGSIZE]
      ensures !found ==> forall n :: n in View() ==> n / ENTRIES != la / PGSIZE / ENTRIES
    {
      var n := la / PGSIZE;
      if n / ENTRIES in tables {
        return true, tables[n / ENTRIES][n % ENTRIES];
      }
      return false, EMPTY_PTE;
    }

    /** Assignment of a valid entry through the pointer that get_pte returned. */
    method SetPte(la: nat, pte: Pte)
      requires Valid() && la < USERTOP && la / PGSIZE / ENTRIES in tables && pte.v
      modifies this
      ensures Valid() && tables.Keys == old(tables.Keys)
      ensures View() == old(View())[la / PGSIZE := pte]
    {
      var n := la / PGSIZE;
      tables := tables[n / ENTRIES := tables[n / ENTRIES][n % ENTRIES := pte]];
      SamePage(n);
    }

    method ClearPte(la: nat)
      requires Valid() && la < USERTOP && la / PGSIZE / ENTRIES in tables
      modifies this
      ensures Valid() && tables.Keys == old(tables.Keys)
      ensures View() == old(View()) - {la / PGSIZE}
    {
      var n := la / PGSIZE;
      tables := tables[n / ENTRIES := tables[n / ENTRIES][n % ENTRIES := EMPTY_PTE]];
      SamePage(n);
    }

    /** get_pte with creation of an empty table, then the new entry. */
    method PageInsert(frame: nat, la: nat, perm: Perm)
      requires Valid() && la < USERTOP
      modifies this
      ensures Valid()
      ensures View() == old(View())[la / PGSIZE := MakePte(frame, perm)]
    {
      var n := la / PGSIZE;
      if n / ENTRIES !in tables {
        tables := tables[n / ENTRIES := seq(ENTRIES, _ => EMPTY_PTE)];
        assert View() == old(View());
      }
      SetPte(la, MakePte(frame, perm));
    }
  }

  lemma SamePage(n: nat)
    ensures forall m: nat :: m / ENTRIES == n / ENTRIES && m % ENTRIES == n % ENTRIES ==> m == n
  {
  }
}
