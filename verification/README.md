# Verified models of eclib4

eclib4 is a C++ library with a small embedded time-series database (table space, B+ tree index, page
cache, data pages), an object file, a block allocator, a lock-free queue, and self-contained
algorithms. This project models the parts of it whose correctness is not visible from any single
function, and proves what those parts are for.

Code that changes state in the source is modelled by classes and methods that change state; each
method is proved against a specification on plain values, and the theorems are about those values.
`dafny verify dfyconfig.toml` checks everything.

## The storage stack

- **B+ tree** (`BPlusTree*.dfy`, `IndexPage.dfy`, `PageStorage.dfy`). A tree is a stack of levels, each
  level a list of pages from left to right, and the in-order reading of a level is the list of
  separators of the level below. Insertion refines sorted insertion into the list of entries, keeps
  every structural invariant through any cascade of splits and root growths, and leaves tree, root
  number and allocated pages exactly as they were when pages run out anywhere in the cascade. Lookup
  is a floor search, with the exact condition under which it is one after deletions, and with the
  answer for keys below 0, which depends on the height. Deletion removes exactly one entry; the tree
  stays usable if and only if the entry was not alone in a leaf that is alone under its parent
  (`Isolated`); `BPlusTreeSample.dfy` has a tree in which an erasure makes an entry isolated.
- **Table space** (`Tablespace.dfy`, `OpenFiles.dfy`). The chain of free pages through the page heads,
  growth by 256 pages inside one file, disjoint places of distinct pages, and the list of open files as
  the most recently used ones.
- **Page cache** (`PageCache.dfy`). Whatever is read, evicted or flushed, readers see the same pages;
  only writing changes them, and flushing the dirty prefix is enough. A hit loses a backward link, and
  the model says exactly when a later call follows the missing link.
- **Data table** (`DataChain.dfy`, `DataTable.dfy`, `TableIndex.dfy`). The records of a tag are one doubly
  linked chain of sorted pages, the index has one entry for each page, insertion is insertion into the
  sorted records, and a query visits exactly the records from its index value on. After an index entry
  has been refused this holds for exactly the insertions whose page covers them. The B+ tree's lookup and
  insertion are shown to be what the table takes its index for.
- **Object file** (`ObjectFile.dfy`). Objects of any length in chains of pages: what is written is read
  back, and other objects are untouched; and when giving back a page leaves the free list intact.

## Memory and concurrency

- **Block allocator** (`BlockAllocator.dfy`). Live blocks never overlap, the counters are exact, the
  collector frees idle heaps only.
- **Lock-free queue** (`LockFreeList.dfy`). One producer and one consumer as interleaved loads and
  stores, over every run.

## Algorithms

- **Grisu2 digit generation** (`Decimal.dfy`, `Grisu.dfy`, `DecimalText.dfy`). Digits stay in the
  interval, no machine word overflows, and it is exact when they are the closest there to the target; the
  text made of them denotes the same number.
- **Expression compiler** (`ExpressionTree.dfy`, `ExpressionParser.dfy`, `ExpressionSample.dfy`). What the
  compiler makes of every expression, with any number of prefix operators: it is the post-order of the
  precedence tree, and evaluates to the value of the tree, if and only if no two prefix operators stand
  next to each other. `ExpressionSample.dfy` writes the precedence table out and says what texts with two
  operators become.
- **AES-256 in CBC mode** (`AesBytes.dfy`, `AesBlock.dfy`, `AesCipher.dfy`, `AesKeys.dfy`, `AesCbc.dfy`,
  `AesKnown.dfy`). The in-place cipher computes the transformations of FIPS 197, whose inverses undo them
  for every state and every key; decoding undoes encoding over whole runs of messages. The schedule and
  the cipher are fixed by the known answers of appendices A.3 and C.3 of that standard.

## Formats and buffers

- **Domain-name messages** (`DnsMessage.dfy`, `DnsNames.dfy`, `DnsPackage.dfy`, `DnsSample.dfy`). Which
  packages can be written, and which of those come back unchanged, both exactly; the loops over bytes
  compute the functions these theorems are about. Names are given by their labels, also those that end in
  a pointer, and a reply is read byte by byte.
- **Protocol-buffer encoding of index entries** (`ProtocolBuffer.dfy`). Variable-length numbers of 32 and 64
  bits, zigzag, and the round trip of an entry.
- **Send buffer** (`SendBuffer.dfy`). A chain of blocks is a queue of bytes, and the limit on its size is
  exceeded by less than a block.

`Octets.dfy` has what these share.

## What the code does not keep

Each of these has a concrete input or an exact condition, and a row below.

- Erasing an isolated entry leaves a B+ tree that is not well-formed (`BPlusTree.BTree.Erase`).
- Lookup below key 0 fails as soon as the tree has two levels, so a query from below 0 visits nothing
  (`BPlusTree.BTree.Find`, `DataTable.DataTable.Query`).
- The page cache follows a missing backward link after some runs of hits (`PageCache.BackLinkLost`).
- After a refused index entry some later insertions break the order of records
  (`DataTable.RefusalBreaksOrder`).
- Giving back a page number below 0 can spoil the free list of a table space (`Tablespace.Space.PageFree`).
- Giving back a page of an object file that is free already leaves a free list that runs into a circle
  (`ObjectFile.ObjectFile.PageFree`).
- Grisu digits need not be the nearest once the ten powers of its table are used up (`Grisu.DigitGen`,
  `Grisu.EveryEntryKeeps`, `Grisu.NearnessLost`).
- Two prefix operators next to each other are not translated to the post-order of the expression
  (`ExpressionTree.TranslatesToPostOrder`).
- A record with an index value below 0 makes the first page of a tag unreachable when its index has more than
  one level (`DataTable.DataTable.InsertBelow`).
- Encoded messages are decoded exactly when their size modulo 2^32 is below 2^31 - 16, and of those of 2^32
  bytes and more only the first padded size modulo 2^32 bytes are encrypted (`AesCbc.DecodeUndoesEncode`,
  `AesCbc.RestIsPlain`).
- A tag identifier of zero does not replace an older one in an object that is parsed into again
  (`ProtocolBuffer.StaleTagId`).
- The element counter of the lock-free queue can read -1 during calls (`LockFreeList.CounterCanGoNegative`).

## Model

| member | source | states |
|---|---|---|
| `BPlusTree.BTree.Insert` | ec_bptree.h:402-421 | Insertion at the root: the entries become the old ones with the key set (sorted insertion); levels stay well-formed; new pages come from the storage; on allocation failure tree, root number, pages and allocated set are exactly the old ones; it succeeds whenever there are more free pages than levels; the result code tells update, no change and insertion apart |
| `BPlusTree.BTree.CreateRoot` | ec_bptree.h:503-518 | The first insertion makes a single leaf holding the entry, or fails and changes nothing |
| `BPlusTree.BTree.InsertIdx` | ec_bptree.h:528-603 | Insertion below a given stack of levels keeps the whole stack well-formed with the item added to its bottom reading, through any chain of splits; all-or-nothing on allocation failure |
| `BPlusTree.BTree.SplitIdx` | ec_bptree.h:558-603 | Cutting an overfull page: both halves are stored and linked, the separator reaches the level above, or everything is rolled back |
| `BPlusTree.BTree.Halve` | ec_bptree.h:558-570 | Both halves of an overfull page are written and linked; read together they are the sorted insertion |
| `BPlusTree.BTree.TellAbove` | ec_bptree.h:571-602 | Two halves of the root get a new root, others a separator in the level above; all-or-nothing |
| `BPlusTree.BTree.GrowRoot` | ec_bptree.h:571-592 | A new root above the two halves of the old one makes the stack one level higher and otherwise the same |
| `BPlusTree.BTree.InsertAbove` | ec_bptree.h:593-602 | Telling the level above about a split; if that fails the split is undone |
| `BPlusTree.BTree.Find` | ec_bptree.h:431-452 | Whenever lookup returns a key at or below the query it is the greatest such key of the whole tree; it does so exactly when the leaf the search ends in starts at or below the query; in trees built by insertions it always does, from the smallest key on. For a key below 0 it succeeds exactly when the tree has one level, and then gives the first entry |
| `BPlusTree.BTree.Foreach` | ec_bptree.h:711-731 | Iteration calls back exactly the entries, in order; it needs no right links and no balance |
| `BPlusTree.BTree.FindInPage` | ec_bptree.h:770-787 | The search for a node finds it exactly when it is in the level, and finds its page |
| `BPlusTree.BTree.Erase` | ec_bptree.h:461-465 | Deletion succeeds exactly when the map of entries has the page under the key, and then removes this key from the map and nothing else; what is left is a well-formed tree if and only if the entry was not isolated |
| `BPlusTree.BTree.DelIdx` | ec_bptree.h:611-665 | Removing an item of any level: the cascade of merges above ends with all other entries reachable and frees exactly the pages given up |
| `BPlusTree.BTree.Locate` | ec_bptree.h:611-618 | The item to be removed is found exactly when it is in its level, together with its page and the item above that names the page |
| `BPlusTree.BTree.Rebalance` | ec_bptree.h:632-664 | A page down to a quarter is merged right, else left; an emptied page without such a neighbour is freed |
| `BPlusTree.BTree.MergeRight` | ec_bptree.h:834-864 | A merge with the right neighbour happens exactly when there is one under the same parent and the items fit, and then stores the joined page and frees the neighbour |
| `BPlusTree.BTree.MergeLeft` | ec_bptree.h:866-892 | A merge into the left neighbour happens exactly when there is one under the same parent and the items fit, and then stores the joined page and frees this one |
| `BPlusTree.BTree.FindLeft` | ec_bptree.h:813-821 | The left sibling is the item before the node in its parent page |
| `BPlusTree.BTree.FindRight` | ec_bptree.h:823-832 | The right sibling is the item after the node in its parent page |
| `BPlusTree.BTree.ValidIsReachable` | ec_bptree.h:711-731 | Every well-formed tree is in the weaker shape that iteration and deletion need |
| `IndexPage.Page.Insert` | ec_bptree.h:255-270 | The items of a page become the sorted insertion of the new one |
| `IndexPage.Page.BSearch` | ec_bptree.h:305-329 | Binary search returns the greatest position at or below the key, or 0 |
| `IndexPage.Page.Split` | ec_bptree.h:290-298 | The page keeps the front half, the new page gets the back half |
| `IndexPage.Page.UpdatePgno` | ec_bptree.h:232-243 | The first item with the key gets the new page number, nothing else changes, and the status tells changed, unchanged and absent apart |
| `IndexPage.ResultMeans` | ec_bptree.h:232-243 | An insertion is reported as new, as no change or as an update exactly when the key is new, the entries stay as they are, or a known key gets another page |
| `BPlusTreeModel.InsertSortedIsUpdate` | ec_bptree.h:255-270 | Sorted insertion keeps the list ascending and is the map update at its key |
| `BPlusTreeModel.AsMapInjective` | ec_bptree.h:402-421 | Two ascending lists that stand for the same map are equal, so the entry list is determined by the map |
| `BPlusTreeModel.FlatAscending` | ec_bptree.h:528-603 | Read from left to right, a well-formed level has strictly rising keys across all its pages |
| `BPlusTreeModel.InsertInLevel` | ec_bptree.h:548-557 | Inserting into the page that owns the key is inserting into the reading of the whole level |
| `BPlusTreeModel.ReplaceItems` | ec_bptree.h:548-557 | Replacing the items of one page keeps the level well-formed and its separators unchanged |
| `BPlusTreeModel.SplitPage` | ec_bptree.h:558-570 | Splitting a page keeps the level well-formed and linked, and adds exactly one separator |
| `BPlusTreeDescent.InPageUnique` | ec_bptree.h:528-547 | A key belongs to one page of a level |
| `BPlusTreeDescent.DescendStep` | ec_bptree.h:528-547 | Following the separator at or below the key leads to the page that owns the key one level down |
| `BPlusTreeDescent.LinkedUnique` | ec_bptree.h:711-731 | The levels a storage image holds below a root number are unique |
| `BPlusTreeDescent.StackIsLinked` | ec_bptree.h:770-787 | A well-formed stack is linked from its root |
| `BPlusTreeInsert.SplitInTwo` | ec_bptree.h:558-603 | The two halves of an overfull page take its place in the level |
| `BPlusTreeInsert.RootJoins` | ec_bptree.h:571-592 | With the new root on top the stack is well-formed again |
| `BPlusTreeInsert.AboveJoins` | ec_bptree.h:593-602 | With the separator inserted above, the stack is well-formed again |
| `BPlusTreeInsert.Rollback` | ec_bptree.h:593-602 | Writing the old page back restores the image the stack is stored in |
| `BPlusTreeInsert.SplitTight` | ec_bptree.h:558-570 | Splitting keeps every leaf but the first starting at its own separator |
| `BPlusTreeLookup.FoundIsFloor` | ec_bptree.h:431-452 | What the search finds is the floor exactly when the leaf it ends in starts at or below the key |
| `BPlusTreeLookup.TightLeaf` | ec_bptree.h:431-452 | In a tree built by insertions the leaf a search ends in starts at or below the key |
| `BPlusTreeLookup.VisitAll` | ec_bptree.h:711-731 | Visiting children in order from the root visits the bottom level in order |
| `BPlusTreeErase.RemoveIsMapRemoval` | ec_bptree.h:611-665 | Removing an item from an ascending list is removing its key from the map it stands for |
| `BPlusTreeErase.RemoveInMap` | ec_bptree.h:611-665 | An item is in a level exactly when the map of the level has it, and removing it is removing its key |
| `BPlusTreeErase.MergeLevel` | ec_bptree.h:834-892 | Merging two neighbours keeps a level well-formed and takes the second separator out of the level above |
| `BPlusTreeErase.RemoveInLevel` | ec_bptree.h:611-631 | Removing an item of one page removes it from the reading of the level |
| `BPlusTreeErase.CutJoins` | ec_bptree.h:632-664 | Once the level above no longer names the dropped page, the entry is gone and every other entry is reachable |
| `BPlusTreeErase.RightMerged` | ec_bptree.h:834-864 | The storage after a merge to the right holds the merged level |
| `BPlusTreeErase.LeftMerged` | ec_bptree.h:866-892 | The storage after a merge to the left holds the merged level |
| `BPlusTreeErase.NoNeighbour` | ec_bptree.h:632-664 | An emptied page that cannot be merged is the only child of its parent |
| `BPlusTreeErase.NotUsable` | ec_bptree.h:651-664 | Freeing one of several leaves without repairing its left neighbour never leaves a well-formed tree: the right link dangles, or the first leaf is gone |
| `BPlusTreeErase.Outcome` | ec_bptree.h:611-665 | After a deletion the storage holds a well-formed tree if and only if the entry was not isolated |
| `BPlusTreeSample.IsolatedHappens` | ec_bptree.h:651-664 | A well-formed tree of three levels and capacity 6 with an isolated entry: a leaf of one item is the only child of a page whose only sibling has five, so that 1 + 5 does not fit; and one without isolated entries |
| `BPlusTreeSample.ErasedThree` | ec_bptree.h:611-650 | Three erasures lead from the tree without isolated entries, in which no leaf has a single one, to the tree with one: a leaf is merged to the left, its parent keeps one item and cannot be merged, and the leaf shrinks without a neighbour under its parent |
| `LockFreeList.EveryRunIsSafe` | ec_list.hpp:64-105 | Over every interleaving: no step touches freed memory or frees twice; pops in progress or finished take the values pushed in their order, and every finished pop has handed out its value exactly if its caller asked for one; the node the producer links from is never freed; between calls the counter is pushed minus popped |
| `LockFreeList.CallsRecorded` | ec_list.hpp:64-105 | The calls of push and pop in the state are those of the run, in their order, with the value or the request of each |
| `LockFreeList.AskedIsCalled` | ec_list.hpp:84-105 | Which pops ask for a value is what the calls say |
| `LockFreeList.AnyStep` | ec_list.hpp:64-105 | Each load or store of either thread keeps the invariant and never faults |
| `LockFreeList.RunFrom` | ec_list.hpp:64-105 | So does every run from a state that meets it |
| `LockFreeList.ProducerStep` | ec_list.hpp:64-83 | Each producer step keeps the invariant |
| `LockFreeList.ConsumerStep` | ec_list.hpp:84-105 | Each consumer step keeps the invariant |
| `LockFreeList.PopTestsEmptiness` | ec_list.hpp:84-87 | The consumer gives up exactly when everything pushed has been popped |
| `LockFreeList.CounterCanGoNegative` | ec_list.hpp:64-105 | A concrete interleaving in which the counter reads -1: it is exact between calls only |
| `LockFreeList.PushGoesOn` | ec_list.hpp:64-83 | A push in progress always has an enabled next step that brings it nearer its end, whatever the consumer does |
| `LockFreeList.PopGoesOn` | ec_list.hpp:84-105 | So does a pop |
| `LockFreeList.ThreadsApart` | ec_list.hpp:64-105 | Neither thread changes what the other has still to do |
| `LockFreeList.Destroy` | ec_list.hpp:44-55 | The destructor frees every node of the list once and nothing else |
| `Grisu.DigitGen` | dtoa_milo.h:244-301 | For every mantissa, every exponent from -60 to -32, every width below the mantissa and any target: the digits times their power of ten lie in the interval, no multiple of ten times that power lies inside it, the digits have no leading zero and are at most 21. For a target in the interval they are the nearest to it (the greater one of two) if and only if the input lets the loops stop within the table of powers (`StaysInTable`) or no point halfway between two candidates lies from the target computed with the number read past the table up to the target itself; no 64-bit operation overflows and both loops end |
| `Grisu.StopsWithinNine` | dtoa_milo.h:286-300 | Nine digits behind the point are enough exactly when some number of them up to nine is: when for some such m the remainder of f * 10^m is below delta * 10^m |
| `Grisu.FewestInTable` | dtoa_milo.h:286-300 | When digits behind the point are needed, the fewest that stop the loop are fewer than ten exactly when the input stays in the table |
| `Grisu.StaysNearest` | dtoa_milo.h:286-300 | The number nearest to one point is the one nearest to a later point exactly when no point halfway between two candidates has been passed |
| `Grisu.EveryEntryKeeps` | dtoa_milo.h:297 | Past the table, nearness survives whatever number is read there exactly when the two greatest candidates are not both in the interval or the target is not past halfway between them; a target of 0 is one such case |
| `Grisu.NearnessLost` | dtoa_milo.h:297 | An input for which ten digits behind the point are needed (mantissa 2^32 + 2, width 1, target 1, exponent -32): whatever 32-bit number is read past the table, a halfway point lies between, so that nearness is lost |
| `Grisu.FractionDigits` | dtoa_milo.h:284-300 | The same for the loop behind the point, with the number scaled up by the digits generated |
| `Grisu.GrisuRound` | dtoa_milo.h:221-228 | Rounding never takes the last digit below 0, stays within the width, and ends at the closest candidate, the first one when two are as close |
| `Grisu.RoundOff` | dtoa_milo.h:276-281 | The last step of either loop: a rounded number in the interval, nearest to the target |
| `Grisu.CountDecimalDigit32` | dtoa_milo.h:230-242 | The number of decimal digits of a 32-bit number |
| `Grisu.NearestOfAll` | dtoa_milo.h:221-228 | Closest among the candidates of rounding is closest among all multiples of the unit in the interval |
| `Grisu.WholeStep` | dtoa_milo.h:253-275 | One digit of the integer loop: number, digits and remainder stay in balance |
| `Grisu.FractionStep` | dtoa_milo.h:285-299 | One digit of the fraction loop: number, digits and remainder stay in balance after scaling by ten |
| `Grisu.FractionFits` | dtoa_milo.h:284-300 | The digits generated never exceed the mantissa, so the buffer bound holds |
| `DecimalText.Prettify` | dtoa_milo.h:357-396 | The text is a number that a reader takes for the digits times the power of ten; it has an exponent exactly outside 10^-6 to 10^21, and then one digit before the point |
| `DecimalText.WriteExponent` | dtoa_milo.h:333-355 | The characters written are read back as the exponent |
| `DecimalText.TextShows` | dtoa_milo.h:357-396 | Each of the four notations denotes the same number as the digits with their power of ten |
| `DecimalText.ReadsPlain` | dtoa_milo.h:357-381 | How a text without an exponent is read |
| `DecimalText.ReadsScientific` | dtoa_milo.h:382-395 | How a text with an exponent is read |
| `DecimalText.Move` | dtoa_milo.h:367-391 | Moving characters to the right with overlap |
| `ExpressionParser.CompilePreservesMeaning` | ec_exp.h:502-769 | For every expression of numbers, names, parentheses, binary operators and any number of - and ~ before an operand, spelt with any blanks between tokens: the compiler emits the post-order of its precedence tree if and only if no two prefix operators stand next to each other, and evaluating that gives the value of the tree or fails exactly when the tree does, for any meaning of the operators; otherwise there is a meaning for which it does not |
| `ExpressionSample.TwoOperators` | ec_exp.h:332-375 | For all operands, all pairs of the 18 binary operators in ten groups and any blanks: the second operator is applied first exactly when it stands in a tighter group, otherwise the first one is |
| `ExpressionSample.TwoValues` | ec_exp.h:669-769 | The operands of each of the two operators, in the order of the text, for any meaning of the operators |
| `ExpressionSample.GroupedLeft` | ec_exp.h:518-645 | Parentheses around the first operator apply it first, for every pair of operators |
| `ExpressionSample.GroupedRight` | ec_exp.h:518-645 | Parentheses around the second operator apply it first |
| `ExpressionSample.PrefixOnLeft` | ec_exp.h:578-583 | A - or ~ before the first operand belongs to this operand alone, whatever operator follows |
| `ExpressionSample.PrefixOnRight` | ec_exp.h:578-583 | The same behind an operator |
| `ExpressionSample.ProductFirst` | ec_exp.h:347-375 | The text 1+2*3 becomes 1 2 3 * + |
| `ExpressionSample.LeftToRight` | ec_exp.h:612-622 | The text 7 - 2 - 1 becomes 7 2 - 1 - |
| `ExpressionSample.EqualityFirst` | ec_exp.h:338-345 | The text x&1==y becomes x 1 y == & |
| `ExpressionSample.SingleCharacters` | ec_exp.h:586-602 | A single = is refused, and a ! between operands is an inequality |
| `ExpressionParser.Parse` | ec_exp.h:502-666 | The one-pass compiler computes what tokenizing and then translating would |
| `ExpressionParser.Eval` | ec_exp.h:669-769 | The evaluator computes the value of a postfix program, or fails |
| `ExpressionParser.PopYielding` | ec_exp.h:612-622 | Popping operators of the same or a higher level |
| `ExpressionParser.PopInside` | ec_exp.h:629-641 | Popping up to the parenthesis |
| `ExpressionParser.LexRender` | ec_exp.h:502-666 | A rendered token sequence is read back as itself, with any blanks in the gaps |
| `ExpressionTree.ExpressionsKeepMeaning` | ec_exp.h:612-665 | The same at the level of tokens; without two prefix operators next to each other the tree is unique up to parentheses |
| `ExpressionTree.TranslatesToPostOrder` | ec_exp.h:612-665 | The translation of a precedence tree is its post-order if and only if no two prefix operator tokens are neighbours, that is, no prefix operator of the tree has another one for its operand |
| `ExpressionTree.YardTranslates` | ec_exp.h:612-665 | What the translation makes of any tree: the post-order, but that all prefix operators of an operand save the last are written before it |
| `ExpressionTree.PostOrderIfSingle` | ec_exp.h:612-622 | That is the post-order exactly when no prefix operators are stacked |
| `ExpressionTree.StackedTokens` | ec_exp.h:612-622 | Whether they are can be read off the tokens |
| `ExpressionTree.YardSecond` | ec_exp.h:618 | A second prefix operator drives the first one out, as the exception for right-to-left operators never applies |
| `ExpressionTree.YardTree` | ec_exp.h:612-641 | Reading the tokens of a tree in any context emits all but the operators on its right edge, which are pending |
| `ExpressionTree.MeaningPreserved` | ec_exp.h:669-769 | Without neighbouring prefix operators, running the translation gives the value of the tree |
| `ExpressionTree.MeaningLost` | ec_exp.h:612-769 | With them, running the translation as a builder of trees does not give the tree |
| `ExpressionTree.RunPostOrder` | ec_exp.h:669-769 | Running a post-order pushes the value of the tree, or fails exactly when it has none |
| `ExpressionTree.TreeIsUnique` | ec_exp.h:332-375 | An expression without neighbouring prefix operators has one tree that follows the precedence levels, parentheses aside |
| `ExpressionTree.TreeExists` | ec_exp.h:332-375 | Every expression has such a tree |
| `ExpressionTree.AcceptsBalanced` | ec_exp.h:624-665 | The compiler accepts a token sequence if and only if its parentheses match |
| `ExpressionTree.TwoPrefixesFail` | ec_exp.h:612-622 | Nothing that starts with two prefix operators can be evaluated |
| `ExpressionTree.TwoPrefixesMisplaced` | ec_exp.h:618 | An instance: a - - - b is compiled as (-a) - (-b) |
| `DataTable.DataTable.Insert` | ec_dbtable.h:58-121 | For every table whose pages are sound, whatever its index has: the records of the tag become the old ones with the record put in or replaced, other tags keep theirs, the chain stays linked, sorted and within page size, if and only if the page the index names covers the record (`Misplaced`); with a full index it always does, and stays full if the entry is taken; it fails only without a page to allocate (nothing changes) or when the index refuses the entry |
| `DataTable.DataTable.InsertInto` | ec_dbtable.h:77-120 | The same for a tag that exists |
| `DataTable.DataTable.InsertNew` | ec_dbtable.h:571-605 | The first record of a tag gets a page with index value 0 and one index entry |
| `DataTable.DataTable.InsertBelow` | ec_dbtable.h:58-65 | A record below 0 for a tag whose index has more than one level is filed as the first of a new tag: key 0 names a page of this record alone, and every lookup from 0 up to the second key ends there |
| `DataTable.DataTable.LoadAndInsert` | ec_dbtable.h:77-90 | Inserting into the page the index names keeps the chain in order exactly when that page covers the record, and otherwise leaves records that no longer rise |
| `DataTable.AfterRefusal` | ec_dbtable.h:112-115 | After a split whose entry is refused, a record is in place exactly when it lies below the first index value of the new page, or from that of the page after it on |
| `DataTable.RefusedIsMisplaced` | ec_dbtable.h:112-115 | Every split whose entry is refused puts records out of place: the first one of the new page is |
| `DataTable.RefusalBreaksOrder` | ec_dbtable.h:112-115 | What that does to the order: with pages 10 and 20, 30 and an index of the first page only, inserting 25 gives 10, 25, 20, 30 |
| `DataTable.DataTable.SplitSave` | ec_dbtable.h:761-838 | With bounded record sizes a page grown too large is always split, both halves fit, and three writes link the new page in |
| `DataTable.DataTable.SplitAndIndex` | ec_dbtable.h:101-120 | After a split and its index entry the table is consistent; without the entry queries are still exact, and the first record of the new page is out of place from then on |
| `DataTable.DataTable.StoreBack` | ec_dbtable.h:91-99 | Writing back a page that still fits |
| `DataTable.DataTable.Query` | ec_dbtable.h:350-392 | From 0 on, and below 0 with an index of one level: visits exactly the records from its index value on, in ascending order, up to the one the callback stops at; the end flag says that the last page was reached. Below 0 with more levels it visits nothing |
| `DataTable.UpToMeans` | ec_dbtable.h:359-388 | The records visited are the first ones; of these only the last may be one at which the callback stops, and it is unless all are visited |
| `DataTable.DataTable.QueryPages` | ec_dbtable.h:359-388 | Following the chain from the page the index names |
| `DataTable.DataPage.Insert` | ec_dbdatapage.h:130-192 | A page insertion is insertion into the sorted records, and reports insertion, update or no change |
| `DataTable.OperationMeans` | ec_dbdatapage.h:130-192 | It reports 0 exactly when the records stay as they are, 1 when a record replaces another, 2 when there is one more |
| `DataTable.DataPage.Search` | ec_dbdatapage.h:165-189 | The search by halving finds the record or its place |
| `DataTable.DataPage.SplitPage` | ec_dbdatapage.h:200-221 | The page is cut where its encoding reaches the split point |
| `DataTable.HalvesFit` | ec_dbdatapage.h:200-221 | With bounded sizes the cut exists and both parts fit |
| `DataChain.InsertInPage` | ec_dbtable.h:77-99 | Inserting into the page the index names is inserting into the records of the whole chain |
| `DataChain.OutOfPlace` | ec_dbtable.h:77-99 | Inserting a record at or above the next page: it ends up behind its page, and records and links are kept but for the order |
| `DataChain.SplitKeepsChain` | ec_dbtable.h:761-838 | A split keeps chain, order and records, and calls for exactly one more index entry |
| `DataChain.StoredSplit` | ec_dbtable.h:796-828 | The three writes of a split store the split chain |
| `DataChain.UpsertIsUpdate` | ec_dbdatapage.h:130-192 | Putting a record in keeps the order and is the map update at its index value: later writes replace equal index values |
| `DataChain.UpsertSize` | ec_dbdatapage.h:227-238 | A record more enlarges the encoding by a bounded amount, though a record may be encoded relative to the one before |
| `DataChain.SoundUpdate` | ec_dbtable.h:58-121 | A new chain for one tag leaves the chains of the others intact and apart |
| `DataChain.SinceIsExact` | ec_dbtable.h:376-388 | The records from an index value on are exactly those not below it, in order |
| `DataChain.RecordsRise` | ec_dbtable.h:58-121 | The records of a chain rise strictly across all its pages |
| `BlockAllocator.BlockAllocator.Malloc` | ec_alloctor.h:549-599 | A block not in use before, from a heap its header names: the first of the list that has a free one, which moves up behind the head if it has more, or a new heap when no block is free; it fails only when no block is free and the system gives no memory; all counters stay exact |
| `BlockAllocator.BlockAllocator.Free` | ec_alloctor.h:600-625 | The block and no other goes out of use. With more heaps than the collector starts at, a heap behind the head that becomes idle and a count of free blocks that is not that of one full heap, exactly the idle heaps behind the head disappear; otherwise none does |
| `BlockAllocator.BlockAllocator.Gc` | ec_alloctor.h:636-659 | The collector drops exactly the idle heaps behind the head |
| `BlockAllocator.BlockAllocator.AddHeap` | ec_alloctor.h:552-573 | A new heap overlaps none of the others and becomes the head only if there is none |
| `BlockAllocator.BlockAllocator.MoveBehindHead` | ec_alloctor.h:587-591 | Moving a heap up in the list changes no counter and no block |
| `BlockAllocator.BlockAllocator.LiveBlocksDisjoint` | ec_alloctor.h:549-625 | Blocks in use, with the words in front of them, never overlap |
| `BlockAllocator.BlockAllocator.OneOwner` | ec_alloctor.h:424-428 | A block belongs to one heap |
| `BlockAllocator.MemHeap.Malloc` | ec_alloctor.h:422-437 | A heap hands out a block not in use, inside its memory, or none when it has none |
| `BlockAllocator.MemHeap.Free` | ec_alloctor.h:438-444 | A heap takes a block back |
| `BlockAllocator.MemHeap.CanFreeMeansIdle` | ec_alloctor.h:448-450 | All blocks are free exactly when none is in use |
| `BlockAllocator.DropIdle` | ec_alloctor.h:645-652 | Dropping an idle heap of the full size takes exactly that size off the count of free blocks |
| `BlockAllocator.InitBlocks` | ec_alloctor.h:470-476 | The first heap has at least one block and at most the full number |
| `BlockAllocator.ChooseClass` | ec_alloctor.h:718-731 | The size class chosen is the smallest that is large enough |
| `Tablespace.Space.PageAlloc` | ec_tbs.h:650-713 | The page handed out was not in use; it fails exactly when there is no free page and the last file allowed is full |
| `Tablespace.Space.PageFree` | ec_tbs.h:722-771 | A page in use becomes the first free one; freeing a free page changes nothing; a page beyond the space is refused. A number below 0 passes the test of the range: nothing changes when its place cannot be written or looks like a free page, and otherwise no chain of free pages fits the counters any more |
| `Tablespace.Space.GrowPages` | ec_tbs.h:956-988 | 256 more pages, all free and chained in order |
| `Tablespace.Space.WriteFreePages` | ec_tbs.h:964-981 | Writing page after page at rising positions fills exactly the places of the new pages |
| `Tablespace.Space.PagesAddUp` | ec_tbs.h:650-771 | Pages in use plus the counter of free pages is the number of pages |
| `Tablespace.GrowthStaysInFile` | ec_tbs.h:967-968 | A growth step never crosses the end of a file |
| `Tablespace.PagesDisjoint` | ec_tbs.h:732-733 | Distinct pages lie in different files or disjoint byte ranges, behind the head of 8192 bytes |
| `Tablespace.PlacesFollow` | ec_tbs.h:732-733 | Page 0 lies behind the head of file 0, each page behind the one before it, and after the last page of a file the next one lies behind the head of the next file |
| `Tablespace.ListPopped` | ec_tbs.h:700-709 | Taking the first page off the chain leaves a chain of the others |
| `Tablespace.ListPushed` | ec_tbs.h:760-769 | A page put in front of the chain |
| `OpenFiles.OpenFiles.Get` | ec_tbs.h:335-356 | A hit gives the file opened under the number and makes it the most recently used |
| `OpenFiles.OpenFiles.Add` | ec_tbs.h:364-402 | The list holds exactly the eight most recently used files, the least recently used one is closed; with a number that is already there it does so exactly when that file is the one closed |
| `OpenFiles.UseHit` | ec_tbs.h:340-352 | Moving a key to the front keeps the list equal to the first eight of all keys by latest use |
| `OpenFiles.UseMiss` | ec_tbs.h:374-400 | So does putting a new key in front and dropping the last |
| `OpenFiles.UsedAgain` | ec_tbs.h:374-400 | Both together: a key that is none of those that stay |
| `OpenFiles.UsesInOrder` | ec_tbs.h:335-402 | A file that stands before another one in the list has been used at a time since which the other one has not |
| `PageCache.PageCache.GetPageNode` | ec_dbpagecache.h:154-210 | The node of a page comes from the list or from disk, with an eviction when there are 32; no reader notices. It follows a missing backward link exactly when the page is not cached, there are 32 and the last one has no such link |
| `PageCache.TouchedPages` | ec_dbpagecache.h:154-210 | The order of the cached pages afterwards: the page asked for in front, the others as they were, of 32 without the last one; a page that has lost its backward link stays in its place |
| `PageCache.PageCache.GetPage` | ec_dbpagecache.h:61-65 | A read gives the page as last written, unless it faults as above |
| `PageCache.PageCache.WritePage` | ec_dbpagecache.h:75-86 | After a write every byte of the page from the offset on is the one given, as far as the data goes, and every other byte of this page and of all others is as before, for any reader; it fails exactly when it would run over the page or the page does not exist; it faults exactly when it fits and getting the page does |
| `PageCache.PageCache.FlushAll` | ec_dbpagecache.h:89-103 | After a flush the disk holds what readers see |
| `PageCache.PageCache.Flush` | ec_dbpagecache.h:106-119 | The same for one page |
| `PageCache.PageCache.RemovePage` | ec_dbpagecache.h:122-147 | Readers get what the disk has for this page, and no change for any other. It follows a missing backward link exactly when the page is cached behind the head without one |
| `PageCache.PageCache.EvictLast` | ec_dbpagecache.h:175-183 | Evicting a page loses nothing; it faults exactly when the last page has no backward link |
| `PageCache.BackLinkLost` | ec_dbpagecache.h:160-182 | The run 1, 2, 1, 3 to 32 of requests goes well, and then a request for any other page faults, and so does the removal of page 2 |
| `PageCache.PrefixIsEnough` | ec_dbpagecache.h:94-99 | Writing the dirty prefix brings the whole page to disk |
| `PageCache.Overwritten` | ec_dbpagecache.h:75-86 | Writing into the cached copy keeps everything beyond the dirty prefix equal to the disk |
| `ObjectFile.ObjectFile.WriteObject` | ec_objfile.h:375-408 | The object holds exactly the data, in as many pages as it needs, under its old number or an unused one; all other objects are as before |
| `ObjectFile.ObjectFile.GetObject` | ec_objfile.h:418-464 | Reading gives exactly the bytes stored |
| `ObjectFile.ObjectFile.FreeObject` | ec_objfile.h:472-479 | The object is gone and its pages are free, except for the last page of the file; an object of that page alone stays |
| `ObjectFile.ObjectFile.GetPages` | ec_objfile.h:534-573 | The pages of an object in order |
| `ObjectFile.ObjectFile.WriteChain` | ec_objfile.h:387-401 | Old pages first, then new ones: the chain stores the data |
| `ObjectFile.ObjectFile.PageAlloc` | ec_objfile.h:637-673 | A page that was free or did not exist; every page in use keeps its content |
| `ObjectFile.ObjectFile.PageFree` | ec_objfile.h:694-726 | A page is given back unless it is the last of the file or beyond it. Whether it is free already is not noticed, since the test takes a readable head for an unreadable one (line 688): the free list is intact afterwards exactly when it was not free or is refused, and otherwise no chain of distinct pages starts where the file says |
| `ObjectFile.NoChain` | ec_objfile.h:676-726 | A free page put in front of the chain it is in leaves no chain: the old one would be repeated up to it |
| `ObjectFile.ObjectFile.FreePages` | ec_objfile.h:758-775 | All given pages become free but the last of the file; no object is touched |
| `ObjectFile.ObjectFile.GrowPages` | ec_objfile.h:601-634 | 256 more free pages |
| `ObjectFile.PageCountIsCeiling` | ec_objfile.h:387-401 | The number of pages is the length divided by the room of a page, rounded up, and at least one |
| `ObjectFile.PartlyMore` | ec_objfile.h:394-400 | One full page more |
| `ObjectFile.PartlyLast` | ec_objfile.h:388-391 | The last page completes the object |
| `TableIndex.GetIdx` | ec_dbindex.h:227-236 | In an index built by insertions the lookup gives the entry at the position the data table takes it for; it fails exactly for an empty tree and, below 0, for one of several levels |
| `TableIndex.InsertIdx` | ec_dbindex.h:246-257 | Inserting a page into the index is sorted insertion into its entries, and the tree stays an index; or it leaves the tree as it was, which it never does with more free pages than levels |
| `TableIndex.FloorIsAtPos` | ec_dbindex.h:227-236 | The greatest key at or below the query stands at the floor position of the list |
| `TableIndex.ManyPagesManyLevels` | ec_dbindex.h:227-236 | With as many data pages as an index page has room for, the tree has more than one level |
| `TableIndex.SampleIndex` | ec_dbindex.h:227-236 | An index of 19 pages in a tree of three levels |
| `AesCbc.Transmit` | ec_aes256.h:54-83 | A message encoded by one object and decoded by another that holds the same key and vector arrives exactly when its size modulo 2^32 is below 2^31 - 16; the two objects stay in step whatever happens |
| `AesCbc.DecodeUndoesEncode` | ec_aes256.h:54-83 | For every key, every initial vector and every message: it comes back if and only if its size modulo 2^32 is below 2^31 - 16; otherwise the decoder refuses |
| `AesCbc.RestIsPlain` | ec_aes256.h:67-76 | All of a message is encrypted exactly when its padded size is below 2^32; what is behind the size modulo 2^32 is sent as it is |
| `AesCbc.MostlyPlain` | ec_aes256.h:55-76 | A message of 2^32 + 5 bytes comes back, with only its first block encrypted |
| `AesCbc.AcceptedSizes` | ec_aes256.h:59-81 | The sizes whose padding the decoder accepts, after the casts of encoder and decoder to 32-bit integers |
| `AesCbc.EveryRunDecodes` | ec_aes256.h:123-150 | Over any run of messages through one object on each side, every message is decoded to itself: each side goes on from the last block of the message before |
| `AesCbc.CbcUndone` | ec_aes256.h:123-150 | Chained decryption undoes chained encryption, for any number of blocks |
| `AesCbc.CipherBlock` | ec_aes256.h:123-137 | Each block of ciphertext is the encryption of the block of plaintext added to the block of ciphertext before it, the first one to the initial vector |
| `AesCbc.NextVector` | ec_aes256.h:123-137 | The next message starts with the last block of ciphertext of this one |
| `AesCbc.PaddingIs` | ec_aes256.h:59-66 | For the sizes that come back the padding is 1 to 16 bytes to whole blocks, each of which holds how many follow the first |
| `AesCbc.UnpadUndoesPad` | ec_aes256.h:59-66 | Removing the padding undoes padding, exactly for these sizes |
| `AesCbc.Aes256.EncryptBuffer` | ec_aes256.h:123-137 | Encrypting in place computes the chained encryption of as many bytes as it is told, leaves the rest and keeps the last block for the next call |
| `AesCbc.Aes256.DecryptBuffer` | ec_aes256.h:139-150 | Decrypting in place computes the chained decryption of as many bytes as it is told, leaves the rest and keeps the last block of that ciphertext |
| `AesCbc.Aes256.InitKeyIv` | ec_aes256.h:48-52 | A new key gives its expanded schedule, and the vector is the start of the chain |
| `AesCbc.Aes256.CbcEncode` | ec_aes256.h:55-69 | Padding and encrypting a message |
| `AesCbc.Aes256.CbcDecode` | ec_aes256.h:72-83 | Decrypting and removing the padding, or refusal |
| `AesCbc.Pad` | ec_aes256.h:57-66 | The bytes appended, for every size |
| `AesBlock.DecryptUndoesEncrypt` | ec_aes256.h:332-443 | The inverse cipher undoes the cipher for every block and every array of round keys |
| `AesBlock.BackMeetsForward` | ec_aes256.h:423-443 | Going back from the last round meets the states of going forward |
| `AesBlock.InvMixUndoesMixColumns` | ec_aes256.h:318-330 | The inverse mixing of columns undoes the mixing |
| `AesBlock.InvShiftUndoesShift` | ec_aes256.h:284-310 | Shifting the rows back undoes shifting them |
| `AesBytes.InvMixUndoesMix` | ec_aes256.h:394-421 | For every column, the inverse matrix in GF(2^8) undoes the matrix |
| `AesBytes.InvSBoxUndoesSBox` | ec_aes256.h:156-191 | The second table is the inverse of the first |
| `AesBytes.SBoxIsAffineInverse` | ec_aes256.h:156-173 | The table is the affine map after the inverse in GF(2^8), as section 5.1.1 of FIPS 197 defines it |
| `AesBytes.MixWithSumIsMix` | ec_aes256.h:318-330 | One doubling and the sum of a column give each byte of the matrix product of section 5.1.3 of FIPS 197 |
| `AesBytes.XTimeByBitIsXTime` | ec_aes256.h:312-315 | Multiplying the reduction by the bit shifted out is multiplication by {02} |
| `AesBytes.MultiplyIsProduct` | ec_aes256.h:394-401 | The products by shifts are products in GF(2^8) for the four factors used |
| `AesCipher.Cipher` | ec_aes256.h:332-353 | The loop over the rounds changes sixteen bytes of the buffer into their encryption and no other |
| `AesKnown.CipherKnown` | ec_aes256.h:332-443 | The block of appendix C.3 of FIPS 197 is encrypted under the key of that appendix to the block of the standard, and back |
| `AesCipher.InvCipher` | ec_aes256.h:423-443 | The same for decryption |
| `AesKeys.KeyExpansion` | ec_aes256.h:199-250 | The loop fills the schedule word by word as section 5.2 of FIPS 197 defines it |
| `AesKnown.ScheduleKnown` | ec_aes256.h:199-250 | Words 8 to 15 and 56 to 59 of the schedule of the key of appendix A.3 of FIPS 197 are those of the standard |
| `AesKeys.TableHoldsPowers` | ec_aes256.h:193-196 | The table of round constants holds the powers of {02} |
| `DnsPackage.WriteAndParse` | ec_dns.h:533-602 | A package written into a buffer and parsed again: it is written exactly when all names can be written and there is room, and then comes back unchanged exactly when it is well-formed (counts that are the lengths of the lists, names of dotted labels of 1 to 63 bytes, data shorter than 64K); a well-formed package needs exactly `Room` bytes |
| `DnsMessage.MessageComesBack` | ec_dns.h:533-602 | Of all packages that can be written, exactly the well-formed ones come back from their bytes, whatever follows in the packet |
| `DnsMessage.PackageWritten` | ec_dns.h:593-602 | A package can be written exactly when every name is not empty and has no label over 63 bytes |
| `DnsMessage.WellFormedMeans` | ec_dns.h:533-602 | A package is well-formed exactly when it can be written and the conditions for coming back hold |
| `DnsMessage.RoomNeeded` | ec_dns.h:593-602 | The size of a well-formed package |
| `DnsMessage.NameWritten` | ec_dns.h:310-342 | A name can be written exactly when it is not empty and no label, between dots or at signs, is longer than 63 bytes |
| `DnsMessage.DottedMeans` | ec_dns.h:279-342 | The names that are written and come back are exactly those of dotted labels of 1 to 63 bytes |
| `DnsMessage.NameComesBack` | ec_dns.h:279-342 | A name that was written is read back exactly when none of its labels is empty and it has no at sign |
| `DnsMessage.PointerComesBack` | ec_dns.h:202-267 | Two bytes that point to the labels of a name are read as the name, unless they are the last of the packet |
| `DnsNames.CompressedName` | ec_dns.h:202-303 | A name of labels and a pointer to further labels is all of them with dots between, and ends behind the pointer; the labels pointed to are ended by a zero byte or by another pointer, which is not followed; at the very end of a packet it is refused |
| `DnsNames.PointerAlone` | ec_dns.h:202-303 | The same for a pointer alone |
| `DnsNames.PlainName` | ec_dns.h:279-303 | Labels that a zero byte ends are the name with dots |
| `DnsNames.NameBytes` | ec_dns.h:310-342 | A dotted name is written as its labels, the length of each in front of it, and a zero byte |
| `DnsSample.ReplyRead` | ec_dns.h:891-1099 | A reply of 85 bytes with a question, an answer, an authority and an additional record, all with compressed names, is read as these, field by field |
| `DnsSample.QuestionWritten` | ec_dns.h:891-1099 | Its question is written as those bytes |
| `DnsSample.FlagPlaces` | ec_dns.h:104-118 | Each flag has its place in the second word of the head |
| `DnsSample.HeadWritten` | ec_dns.h:104-124 | The twelve bytes of a head with four different counts |
| `DnsMessage.HeadComesBack` | ec_dns.h:73-124 | The twelve bytes of the head, with its seven flags |
| `DnsMessage.RecordComesBack` | ec_dns.h:1008-1099 | A resource record comes back exactly when its name does and its data is shorter than 64K |
| `DnsMessage.ListComesBack` | ec_dns.h:891-1099 | A list of items each of which comes back comes back, and the count decides how much is read |
| `DnsPackage.DnsPackage.Parse` | ec_dns.h:533-585 | The parser over head, questions and three lists of records computes the reading function, and fails where it does |
| `DnsPackage.DnsPackage.Serialize` | ec_dns.h:593-602 | The serializer writes the encoding of the package, or -1 when it cannot be written or does not fit |
| `DnsPackage.ParseName` | ec_dns.h:279-302 | The loop over labels and pointers computes the reading of a name |
| `DnsPackage.SerializeName` | ec_dns.h:310-342 | The loop over characters writes the encoding of a name |
| `DnsPackage.ParseResourceRecords` | ec_dns.h:1008-1099 | The loop over records |
| `DnsPackage.SerializeResourceRecords` | ec_dns.h:1105-1150 | The three lists of records |
| `ProtocolBuffer.ParseUndoesEncode` | ec_dbindex.h:45-125 | Parsing an encoded index entry gives it back, except that a tag identifier of zero keeps the one the object had |
| `ProtocolBuffer.StaleTagId` | ec_dbindex.h:73-81 | The round trip through a used object is exact if and only if the tag identifier is not zero or was zero before |
| `ProtocolBuffer.ParseFresh` | ec_dbindex.h:62-71 | Into a fresh object it is always exact |
| `ProtocolBuffer.Parse` | ec_protoc.h:570-613 | The loop over fields computes the reading of a message: known fields are taken over, unknown ones skipped, malformed ones refused |
| `ProtocolBuffer.FixedPassedOver` | ec_protoc.h:596-605 | A field of four or eight fixed bytes in front of a message changes nothing, and makes it unreadable when it is cut short |
| `ProtocolBuffer.UnknownWireType` | ec_protoc.h:606-609 | Wire types 3, 4, 6 and 7 make a message unreadable |
| `ProtocolBuffer.UnknownNumber` | ec_dbindex.h:104-114 | A number under an identifier that the entry does not have changes nothing |
| `ProtocolBuffer.UnknownString` | ec_dbindex.h:117-125 | The same for a string |
| `ProtocolBuffer.OutContent` | ec_dbindex.h:93-102 | Writing field by field gives the encoding; zero numbers and empty names are not written |
| `ProtocolBuffer.EntryAsBytes` | ec_dbindex.h:93-102 | An entry byte by byte, with the identifiers and the order of its fields |
| `ProtocolBuffer.NegativeAsBytes` | ec_dbindex.h:93-102 | A page number of -1 is sent in ten bytes after its key |
| `ProtocolBuffer.SizeContent` | ec_dbindex.h:83-91 | The size reckoned in advance is the number of bytes written |
| `ProtocolBuffer.OutVarint` | ec_protoc.h:198-218 | A number of 32 or 64 bits is written as its base-128 digits, the lowest first, though the loop ends before the last digit |
| `ProtocolBuffer.NumbersAsBytes` | ec_protoc.h:198-218 | Numbers at the borders between lengths, byte by byte |
| `ProtocolBuffer.GetVarint` | ec_protoc.h:114-132 | Reading is the reading of base-128 digits, cut off at the width; it fails exactly when the digits do not end in time |
| `ProtocolBuffer.DecodeWhole` | ec_protoc.h:114-132 | A number that was written is read back, with the bytes after it left over |
| `ProtocolBuffer.SizeVarint` | ec_protoc.h:301-314 | The number of bytes without writing them |
| `ProtocolBuffer.ZigzagRoundTrip` | ec_protoc.h:99-110 | Zigzag coding and its inverse undo each other on all numbers of 64 bits |
| `ProtocolBuffer.ZigzagRoundTrip32` | ec_protoc.h:99-110 | And on all numbers of 32 bits |
| `ProtocolBuffer.ZigzagMeans` | ec_protoc.h:99-110 | A number v from 0 on becomes 2v, a negative one 2(-v - 1) + 1 (64 bits) |
| `ProtocolBuffer.ZigzagMeans32` | ec_protoc.h:99-110 | The same for 32 bits |
| `SendBuffer.IoBuffer.Append` | ec_memory.h:358-390 | Appended bytes go behind those pending; when a new block is refused, what was appended until then stays, and then the size is over the limit or the allocator has no block; the limit is exceeded by less than a block |
| `SendBuffer.IoBuffer.FreeSize` | ec_memory.h:417-437 | Consuming n bytes takes exactly the first n pending ones, or all; first in, first out over any sequence of calls |
| `SendBuffer.IoBuffer.Get` | ec_memory.h:393-414 | A non-empty prefix of the pending bytes, or nothing exactly when none is pending |
| `SendBuffer.IoBuffer.BoundedByOneBlock` | ec_memory.h:358-390 | The size never exceeds the limit by more than a block |

## Left out

- Reading faults, partial reads, write errors and checksum failures: pages are decoded values, and only allocation can fail (`ec_tbs.h`, `ec_objfile.h`, `ec_bptree.h`); the error branches that only these faults reach are not modelled.
- `btree::clear`, the tree identifier field, page printing and the tracing of the tree: no effect on the properties.
- IndexPage.Page.Split: the position of the cut is the source's; that it is the best one is not claimed.
- `DiyFp`, `GetCachedPower`, the boundaries of a double and the shortest-output claim of Grisu2: floating point and a finite table of constants. `Grisu.DigitGen` takes the interval as given.
- The literal digit table at `dtoa_milo.h:317-331`: `DecimalText.Lut` computes its entries.
- Function calls and string literals in expressions: the compiler model answers `NotModelled` where the source would read one.
- The 21 arithmetic and logical operations `opt_*` (`ec_exp.h:790-1007`), and how a key is read as a number or a variable (`ec_exp.h:377-394`): parameters of the evaluation theorems, which hold for any choice of them.
- `CDataTable::insertfast`, page reuse, `deleterecord`, and the option of `query` to include the record before: not modelled.
- The data table works on the pages as readers of the page cache see them; that the cache is transparent is `PageCache.dfy`.
- `objsets_` and `objalloctor_`, `realloc_`, memory from the system for large blocks: not modelled; the system's promise not to hand out overlapping memory is a precondition.
- Tablespace.Space.PageAlloc: the branch that drops the free chain and grows again after an unreadable page head (`ec_tbs.h:684-699`) is not reached in a run without faults and not modelled.
- Memory order weaker than sequential consistency, and values other than numbers, in `LockFreeList.dfy`.
- Machine integers outside `Grisu.dfy`, `AesCbc.dfy`, `DnsMessage.dfy` and `ProtocolBuffer.dfy`: page numbers, keys and counters are unbounded.
- BPlusTree.BTree.Insert: keys from the minimum key 0 on; the comment at `ec_bptree.h:56` asks for keys above 0.
- `page_::capacity` (`ec_bptree.h:138-141`) is the definition `PageStorage.Capacity`; it has no property of its own.
- DataTable.DataTable.InsertInto: the first insertion that is out of place is described (records kept, order lost); what further insertions do to a tag whose records are out of order is not.
- DataTable.DataTable.Query: the number of levels of the tag's index is a parameter; `TableIndex.GetIdx` ties it to the tree.
- PageCache.PageCache.GetPageNode: after a fault nothing is claimed but that the disk and what readers saw are unharmed up to that point; a failing allocation or disk is not modelled.
- Secrecy: nothing is claimed about AES but that it is computed as the standard says and can be undone.
- DnsPackage.DnsPackage.Parse: the second look at the data of SOA, NS, CNAME and HTTPS records (`ec_dns.h:1084-1093`), which fills fields used for logging and for building answers, is left out; so are the helpers that add records (`ec_dns.h:604-790`).
- DnsPackage.ParseName: where the source looks at the byte behind the packet (`ec_dns.h:207`, `ec_dns.h:253`), the model answers `Beyond` and claims nothing.
- ProtocolBuffer.Parse: lengths of 2^31 or more, which the source takes for negative numbers (`ec_protoc.h:164-176`), are answered `NotModelled`; packed fields, fixed-width fields of other messages and nested objects are left out.
- SendBuffer: `clear`, the move constructor and assignment, and the block allocator behind it, which is a number of blocks left.
- Tablespace.Space.PageFree: what lies before the first page of the first file is given as places that look free, are in use or cannot be written; the content of that head is not part of this model.
- Grisu.DigitGen: the number read past the end of the table of powers (`dtoa_milo.h:297`) is any 32-bit number `entry`; targets beyond the width, which its caller does not pass, get no nearness behind the point.
- DataTable.DataTable.Insert: index values from 0 on, as the B+ tree asks of its keys (`ec_bptree.h:56`). For smaller ones `DataTable.InsertBelow` says what happens when the index of the tag has more than one level; with one level, or for a new tag, the first page gets a record below its index value, and what later splits of this page do is not modelled. Sizes of records are a parameter, with bounds under which a split always succeeds: three records within a quarter of a page, and one within a quarter less head and reserve. Whether the index takes an entry is the parameter `idxOk`, and `TableIndex.InsertIdx` says when the tree does; the record encoding itself is not part of this model.
- TableIndex.InsertIdx: the entry of the tag that the source writes afterwards, and what it does when that fails (`ec_dbindex.h:258-280`).
- AesCbc.Aes256.CbcDecode: lengths that are positive multiples of 16; for others the source reads past the buffer. The base64 wrappers (`ec_aes256.h:87-121`) are not modelled.
- AesCbc.Pad: adding 1 to a size that is 2^31 - 1 modulo 2^32 (`ec_aes256.h:59`) is a signed overflow; the model lets it wrap around.
