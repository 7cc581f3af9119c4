/** The lazily allocated host pages behind guest RAM (vm.h, memory.c). */
module HostMemory {
  import opened Words
  import opened Cache

  const PAGE_SIZE: int := 0x4000     // bytes
  const PAGE_WORDS: int := 0x1000    // PAGE_SIZE_IN_WORD
  const PAGE_ENTRIES: int := 0x4_0000 // PAGE_ENTRY_NUM

  type PageWords = p: seq<word> | |p| == PAGE_WORDS witness seq(PAGE_WORDS, _ => 0)

  /** A `page_table` entry: not yet allocated, or the words of its host page. */
  datatype Page = Absent | Present(words: PageWords)

  type PageTable = t: seq<Page> | |t| == PAGE_ENTRIES witness seq(PAGE_ENTRIES, _ => Absent)

  /** A fresh page, zeroed by `calloc`. */
  function ZeroPage(): (p: PageWords)
    ensures forall o :: 0 <= o < PAGE_WORDS ==> p[o] == 0
  {
    seq(PAGE_WORDS, _ => 0)
  }

  /** The word the guest sees at word offset `o` of a page; an absent page reads as zero. */
  function PageWord(p: Page, o: nat): word
    requires o < PAGE_WORDS
  {
    if p.Present? then p.words[o] else 0
  }

  /** Guest RAM as the page table represents it. */
  function RamOf(t: PageTable): (ram: Ram)
    ensures forall k :: 0 <= k < RAM_WORDS ==> ram[k] == PageWord(t[k / PAGE_WORDS], k % PAGE_WORDS)
  {
    seq(RAM_WORDS, k requires 0 <= k < RAM_WORDS => PageWord(t[k / PAGE_WORDS], k % PAGE_WORDS))
  }

  /** Allocating an absent page changes nothing the guest can see. */
  lemma AllocInvisible(t: PageTable, n: nat)
    requires n < PAGE_ENTRIES && t[n].Absent?
    ensures RamOf(t[n := Present(ZeroPage())]) == RamOf(t)
  {
  }

  /** Word `o` of page `n` is RAM word `n * PAGE_WORDS + o` and no other. */
  lemma StoreInPage(t: PageTable, n: nat, words: PageWords, o: nat, v: word)
    requires t[..] == t && n * PAGE_WORDS + o < RAM_WORDS && o < PAGE_WORDS && n < PAGE_ENTRIES
    requires t[n] == Present(words)
    ensures RamOf(t[n := Present(words[o := v])]) == RamOf(t)[n * PAGE_WORDS + o := v]
  {
    var r, r' := RamOf(t), RamOf(t[n := Present(words[o := v])]);
    forall k: nat | k < RAM_WORDS
      ensures r'[k] == r[n * PAGE_WORDS + o := v][k]
    {
      var m, p := k / PAGE_WORDS, k % PAGE_WORDS;
      assert k == m * PAGE_WORDS + p;
    }
  }

  /** `page_table` and the functions that reach host memory through it. */
  class Vm {
    const pages: array<Page>

    ghost predicate Valid()
    {
      pages.Length == PAGE_ENTRIES
    }

    ghost function Ram(): Ram
      requires Valid()
      reads this, pages
    {
      RamOf(pages[..])
    }

    /** `memory_init`: every entry invalid, so guest RAM is all zero. */
    constructor ()
      ensures Valid() && fresh(pages)
      ensures forall n :: 0 <= n < PAGE_ENTRIES ==> pages[n].Absent?
    {
      pages := new Page[PAGE_ENTRIES](_ => Absent);
    }

    /** `memory_addr_phy2vm` below `MEMORY_MAX_ADDR`: the page of `paddr`, allocated on first use. */
    method PhysToVm(paddr: word) returns (n: nat, words: PageWords)
      requires Valid() && paddr < RAM_LIMIT
      modifies pages
      ensures n == paddr / PAGE_SIZE && n < PAGE_ENTRIES && pages[n] == Present(words)
      ensures Ram() == old(Ram())
    {
      n := paddr / PAGE_SIZE;
      if pages[n].Absent? {
        AllocInvisible(pages[..], n);
        var t := pages[..];
        pages[n] := Present(ZeroPage());
        assert pages[..] == t[n := Present(ZeroPage())];
      }
      words := pages[n].words;
    }

    /** `*(uint32_t *)memory_addr_phy2vm(paddr, false)`. */
    method ReadWord(paddr: word) returns (w: word)
      requires Valid() && paddr < RAM_LIMIT
      modifies pages
      ensures Ram() == old(Ram()) && w == Ram()[paddr / 4]
    {
      var n, words := PhysToVm(paddr);
      WordIndex(paddr);
      w := words[paddr / 4 % PAGE_WORDS];
    }

    /** `*(uint32_t *)memory_addr_phy2vm(paddr, true) = v`. */
    method WriteWord(paddr: word, v: word)
      requires Valid() && paddr < RAM_LIMIT
      modifies pages
      ensures Ram() == old(Ram())[paddr / 4 := v]
    {
      var n, words := PhysToVm(paddr);
      WordIndex(paddr);
      var o := paddr / 4 % PAGE_WORDS;
      StoreInPage(pages[..], n, words, o, v);
      var t := pages[..];
      pages[n] := Present(words[o := v]);
      assert pages[..] == t[n := Present(words[o := v])];
    }
  }

  lemma WordIndex(paddr: word)
    requires paddr < RAM_LIMIT
    ensures paddr / 4 / PAGE_WORDS == paddr / PAGE_SIZE
    ensures paddr / 4 == paddr / PAGE_SIZE * PAGE_WORDS + paddr / 4 % PAGE_WORDS
  {
  }
}
