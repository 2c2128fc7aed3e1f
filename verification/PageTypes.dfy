/** Page-table entities shared by the page deletor, the handlers and the page table itself. */
module PageTypes {
  datatype Tag = Tag(vpn: nat, asid: nat)

  /** perm: 0 data load, 1 data store, 2 instruction fetch. */
  datatype Pte = Pte(ppn: nat, perm: nat, modified: bool)

  datatype Item = Item(tag: Tag, entry: Pte)
}
