# Verification of hopdns

hopdns turns the event streams of clusters into a table of addresses and serves that table as DNS messages. This
project models its three parts, and where they meet, and proves what they are for:

1. **Lookup structures** (`Texts`, `Tables`, `Caches`, `Cnames`): a sorted vector that is a map, a merged view that is a
   de-duplicated union, a walk over labels that finds the longest wildcard.
2. **DNS messages** (`Names`, `Reading`, `NameReaders`, `Messages`, `Writing`, `Replies`, `RoundTrips`) and the
   **server** that answers with them (`Servers`, `ServerProps`, `OnTheWire`, `NxDomains`): four name readers that agree,
   two writers and the decoder that reads them back, a reply built in place with counters and a reserved tail, what the
   server answers in every case, byte for byte, which names a question can carry, and when an NXDOMAIN hides one.
   `ReplyExamples` holds replies that show it.
3. **The watcher protocol** (`Builders`, `Watchers`, `Protocol`, `NoMissedUpdate`, `Timing`, `Federation`, `Peers`): no
   change of a cluster is silently missed, by one peer or by all together, no refresh comes late or in a storm, and
   the order in which peers are heard does not matter. The driver never gets stuck (`Progress`). `Counterexamples` holds
   runs that show where this ends.

`EndToEnd` joins them: at rest, the bytes that answer a query decode to the addresses at which its tasks are running,
in the cluster asked for or, for a name without cluster, in all of them together.

## How the model is written

- What the program changes in place is a class with a `Valid()` predicate (`Table`, `Cache`, `CNAMEs`, `Reply`,
  `Server`, `Watcher`, `Channel`), what it does in a loop is a method with a loop. Each such method is proved equal to
  a function on values, named by a noun (`Insert` to `Put`, `ReadName` to `NameAt`, `AddSoa` to `AuthoritySoa`,
  `Handle` to `DraftFor` and `Final`); the lemmas are about those functions.
- What a function on values means is stated once more without it: in numbers of the wire format (`OnTheWire`,
  `NameReaders`, `Messages`), in letters and code points (`Texts`), or by the position in the input that decides
  (`TableMeaning`, `UniqOrder`, `JobViewMeaning`).
- A reply has two forms: the buffer of bytes with its counters (`Reply`), and the list of records that they stand for
  (`Draft`). `Reply.Valid()` says that the buffer holds the rendering of the draft; every method keeps it.
- Text is a sequence of bytes, as UTF-8; all that the program does to it goes byte by byte, and trimming takes off the
  byte sequences of the Unicode white-space characters. The 16 flags of a message are taken apart with `/` and `%`.
  Time is a 64-bit number with saturating addition.
- The protocol is a system of steps over the state of the cluster, the event stream, the watcher, the refresh in
  progress, the updates on their way and the cache. Agents and tasks are read at two moments, the cluster may change
  in between, and events are coalesced, capped and thrown away as in the code.

## What is assumed of the world

- A connection of the event stream opens with a ping, and a break is reported before the next connection. While it is
  connected, a cluster that changes its agents reports an event that says that anything may have changed (an agent,
  status or ping event, or one that cannot be read), and one that changes the addresses of a job reports such an
  event or one that names the job, not before the change can be read. The agent may throw away events that are not yet
  heard if it reports that it did (a `status` event).
- The status of a job lists the tasks whose job has that name in any letter case.
- Clusters have distinct names, each peer reports one name, and the clock does not run backwards.

## Findings

- The reply for a name without an answer becomes SERVFAIL when Q + 3L + 60 bytes (11 more with EDNS) exceed the limit,
  as the code's arithmetic suggests, but not only then: a zone of 249 to 255 wire bytes never fits, at any limit, since
  the scratch buffer of the SOA record (src/wire.rs:443) holds 788 bytes and the record takes 3L + 44. `NegativeFits`
  is the exact condition, `LongZoneExample` a zone at which the shorter condition is wrong.
- A zone of 245 wire bytes is written and read back, although its `hostmaster` name is then 256 bytes long: the limit
  of section 2.3.4 of RFC 1035 is not checked for the prefixed name (src/wire.rs:501-507).
- That a pointer must point backwards does not by itself end the reading of a name, as the comment at
  src/wire.rs:625-626 has it: a label behind the target leads to the same pointer again (`PointerLoop`). What ends it
  is the limit on the name; the measure is the room left in it, then the position.
- Two refreshes with no ping in between are the shorter waiting time apart, except that a job refresh that fails may be
  followed by a full one at once (src/watcher.rs:338): `TwoRefreshesApart` is the exact exception, `TwoRefreshesAtOnce`
  a run in which both begin at the same moment, `ThreeRefreshesSpan` what holds without that exception.
- A job with the empty name is missed: events that name it are ignored (src/watcher.rs:158-160), while a task of it is
  put into the view. `AccountedExactly` says that this is the only such job, `EmptyNameMissed` is a run. No question
  can name that job.
- An NXDOMAIN can hide names that are answered, in three ways, and in no other (`NxDomainSubtree`): by an exact CNAME
  key below the name, by a wildcard with its parent at or below it, and by the cache. For a name in the domain the cache
  does so exactly through a cluster at or below the name, which then has a dot in its own name
  (`HiddenClustersAreDotted`), when it holds a job that no CNAME takes, that a question can carry and whose reply has
  room (`CacheBelowInDomain`); for a name in a zone of CNAMEs, exactly when the domain lies below it
  (`CacheBelowElsewhere`). `DottedClusterHides`, `WildcardHides` and `ZoneHides` are cases, the last two with an empty
  cache or any. With cluster names of one label and no CNAME key below it, a name in the domain never hides one
  (`NxDomainIsSafe`).

## Model

| member | source | states |
|---|---|---|
| Texts.LowerMeaning | src/watcher.rs:350-355 | lower case is the one text with the same letters that has no capital, where letters differ by 32 and only ASCII letters count |
| Texts.SameLowerMeaning | src/watcher.rs:350-355 | two texts have the same lower case exactly when they are equal up to the case of ASCII letters |
| Texts.TrimMeaning | src/watcher.rs:243-246 | trimming gives the one text that neither begins nor ends with a white-space character and lies between such characters, these being the code points of Unicode White_Space in UTF-8 |
| Basics.UniqOrder | src/watcher.rs:389-395 | de-duplication keeps the first occurrence of every element, in order, and drops the others |
| Tables.LessTotal | src/table.rs:51-53 | of two distinct keys one is the smaller |
| Tables.LessTransitive | src/table.rs:51-53 | the order of keys is transitive |
| Tables.LessMeaning | src/table.rs:51-53 | keys are ordered by their bytes: the first difference decides, and a proper beginning comes first |
| Tables.GetPut | src/table.rs:75-91 | after an insertion a lookup gives the new value for that key and the old answer for every other key |
| Tables.GetOfRow | src/table.rs:57-60 | every row of a sorted table is what a lookup of its key finds |
| Tables.PutSorted | src/table.rs:75-91 | insertion keeps the rows strictly ascending |
| Tables.WithoutMeaning | src/table.rs:94-97 | after a removal only the removed key is gone, no row is new, and the rows stay sorted |
| Tables.AtMeaning | src/table.rs:51-97 | what the binary search returns determines lookup, insertion and removal by position |
| Tables.Canonical | src/table.rs:15-24 | two sorted tables that answer every lookup alike are the same rows |
| Tables.FindIn | src/table.rs:51-53 | the binary search finds the row of the key, or the position at which it would keep the order |
| Tables.LookupIn | src/table.rs:57-60 | a lookup by binary search is the lookup by first match |
| Tables.Table.Find | src/table.rs:51-53 | the binary search over the rows of the table |
| Tables.Table.Lookup | src/table.rs:57-60 | the lookup by binary search in the rows of the table |
| Tables.Table.Insert | src/table.rs:75-91 | the table becomes the map with the key set, stays sorted, and the previous value is returned |
| Tables.Table.Remove | src/table.rs:94-97 | the table becomes the map without the key, stays sorted, and the previous value is returned |
| Caches.MergedMeaning | src/cache.rs:65-69 | the lists merged for a job are exactly the lists of the clusters that know it |
| Caches.MergedOrder | src/cache.rs:65-69 | the merged lists are those of the clusters that know the job, in ascending order of their names |
| Caches.GetMergedMeaning | src/cache.rs:51-62 | the merged addresses repeat none and are exactly the union over all clusters |
| Caches.HasJobMeaning | src/cache.rs:73-75 | a job is known exactly when some cluster holds it |
| Caches.GetAfterSet | src/cache.rs:84-93 | setting a job changes that job of that cluster and nothing else |
| Caches.SetWellSorted | src/cache.rs:84-93 | setting a job keeps both levels of the cache sorted |
| Caches.PutWellSorted | src/cache.rs:95-105 | replacing the view of a cluster keeps both levels sorted |
| Caches.Cache.Set | src/cache.rs:84-93 | the cache becomes the one with that job set |
| Caches.Cache.Replace | src/cache.rs:95-105 | the cache becomes the one with that view, and the previous view is returned |
| Caches.Cache.Clear | src/cache.rs:107-110 | every job of the cluster is gone, every other cluster is as before |
| Caches.Cache.ReadCluster | src/cache.rs:41-43 | two binary searches give the addresses of the job in the cluster, none when either is unknown |
| Caches.Cache.ReadMerged | src/cache.rs:65-69 | one binary search per cluster gives the lists of the job in cluster order |
| Caches.Cache.KnowsJob | src/cache.rs:73-75 | whether some cluster knows the job |
| Caches.Cache.KnowsCluster | src/cache.rs:79-81 | whether the cluster is in the cache |
| Caches.Cache.MergedOnce | src/cache.rs:51-62 | the two loops compute the de-duplicated concatenation of the lists, in cluster order |
| Caches.Cache.CountJobs | src/cache.rs:120-136 | the count is the number of distinct job names over all clusters |
| Caches.CountNew | src/cache.rs:122-134 | what one cluster adds to the count is the number of its names that no earlier cluster has |
| Names.EncodeInjective | src/wire.rs:272-293 | the wire form of names is prefix-free: equal bytes mean the same labels and the same rest |
| Names.JoinSplit | src/wire.rs:273-276 | splitting a text at its dots and joining it again gives the text |
| Names.SplitJoin | src/wire.rs:273-276 | joining labels without dots and splitting again gives the labels |
| Names.LabelsMeaning | src/wire.rs:272-276 | the labels of a text are the one list without dots in it that gives the text without one final dot when joined by dots; the empty text has none |
| Names.InZoneMeaning | src/server.rs:44-50 | a name lies in a zone exactly when it is the zone or some text and a dot in front of it |
| Names.ZonesNest | src/server.rs:44-50 | of two zones that hold the same name, the longer lies in the shorter |
| Reading.SkipPlainName | src/wire.rs:156-169 | the loop computes the end of the name without pointers, or none |
| Reading.SkipName | src/wire.rs:172-185 | the loop computes the end of the name with pointers, or none |
| Reading.FindOpt | src/wire.rs:228-240 | the loop computes the UDP size of the first OPT record that can be reached |
| Reading.ParseQuery | src/wire.rs:188-224 | the parsed query, the bare answer or the silence for every datagram |
| Reading.NameText | src/wire.rs:245-268 | the loops leave the lower-case text of the name in the buffer, or fail where its specification does |
| Reading.ReadName | src/wire.rs:627-664 | ends for every byte string, by the room left in the name and then the position, with the specified name and end |
| Reading.ReadRecord | src/wire.rs:667-705 | the record and its end, or a refusal, for every byte string |
| Reading.ReadRecords | src/wire.rs:721-728 | one section: the loop computes its records in order and where they end |
| Reading.Decode | src/wire.rs:708-730 | ends for every byte string with the specified message or a refusal |
| NameReaders.PlainNameMeaning | src/wire.rs:156-169 | a plain name is accepted exactly when it is the wire form of some name of at most 255 bytes, and its end is the end of that |
| NameReaders.NameEndMeaning | src/wire.rs:172-185 | skipping a name succeeds exactly when there stand labels up to a root label or a whole pointer, and ends behind that |
| NameReaders.ParsedName | src/wire.rs:188-224 | the question of every parsed query is the wire form of a name, its type and its class |
| NameReaders.ParseMeaning | src/wire.rs:188-224 | every datagram exactly, by its bytes: silence for less than 12 bytes or a third byte from 128, code 4 for another opcode than 0, a query when QDCOUNT is 1 and a well-formed name with four bytes behind it follows, with the fields that stand there, code 1 for the rest |
| NameReaders.OptSizeMeaning | src/wire.rs:228-240 | a UDP size is found exactly when, among the records counted, an OPT record with that size stands behind records of other types that can be stepped over |
| NameReaders.EdnsMeaning | src/wire.rs:214-223 | the UDP size of a parsed query is that of such an OPT record behind the question, among the records its three counts announce |
| NameReaders.PlainIsSkipped | src/wire.rs:156-185 | where the plain reader succeeds, the reader with pointers gives the same end |
| NameReaders.ReadIsSkipped | src/wire.rs:627-664 | where the full reader succeeds, the skipping reader gives the same end |
| NameReaders.PointerLoop | src/wire.rs:625-664 | whatever was read before, one round through the message adds two bytes to the name and reaches the same pointer and target again, until they no longer fit in 255 bytes; only that ends it, in a refusal, while skipping takes four bytes |
| NameReaders.NameTextMeaning | src/wire.rs:245-268 | on the wire form of a name the buffer never runs out: the text is the joined labels in lower case, and it fails exactly on a byte no host name may have |
| NameReaders.TextShape | src/wire.rs:245-268 | the text is in lower case, fits in 255 bytes and neither starts nor ends with a dot |
| NameReaders.ReadNameMeaning | src/wire.rs:627-664 | on the wire form of a name the full reader gives its labels each followed by a dot, and refuses exactly when that text exceeds 255 bytes |
| NameReaders.ReadNameExactly | src/wire.rs:627-664 | for every byte string: a name is read exactly when the chain of labels and backward pointers comes to a root label within 255 bytes of text; it is that text, ending where skipping ends; else it is refused as malformed |
| NameReaders.Latin1Meaning | src/wire.rs:645-650 | a byte of a label becomes the character of the same number in UTF-8 |
| Messages.RecordMeaning | src/wire.rs:667-705 | what is read as a record, for every byte string: exactly the name, type, TTL and length that stand there, and the data that type 1, 5 or 6 gives them |
| Messages.DecodedMeaning | src/wire.rs:708-730 | what a message decodes to, for every byte string: exactly its header fields and, behind the questions it counts, the records of its two sections |
| NameReaders.ReadPointerMeaning | src/wire.rs:627-664 | through a pointer to the question the full reader gives the name of the question, ending behind the pointer |
| NameReaders.NameTextIsReadName | src/wire.rs:245-268 | for the question of a parsed query, the text and a dot is the fully read name in lower case; the root is the exception |
| Messages.RecordAdvances | src/wire.rs:667-705 | a record takes at least 11 bytes and ends inside the message |
| Messages.DecodedFits | src/wire.rs:708-730 | a decoded message has exactly the records its counters announce, at 11 bytes or more each |
| Writing.NameBytesMeaning | src/wire.rs:272-293 | a name is written exactly when it is a wire name and its bytes fit, and what is written is its wire form |
| Writing.RefusalMeaning | src/wire.rs:272-293 | a name is refused as bad exactly when a label is empty or longer than 63 bytes and all before it has room, or when the whole has room but more than 255 bytes; else for lack of room |
| Writing.PutName | src/wire.rs:272-293 | the loop writes those bytes at the position and nothing else when it succeeds, and fails with the first thing that goes wrong |
| Writing.CallsKeepDraftsGood | src/wire.rs:387-474 | every record call keeps the counters, the record lengths and the size limit right |
| Writing.EntriesTakeRoom | src/wire.rs:387-474 | every record takes at least 13 bytes |
| Writing.CountsFit | src/wire.rs:412-422 | under a limit of less than 65536 bytes the 16-bit counters cannot overflow |
| Replies.Reply.Bare | src/wire.rs:334-359 | the buffer holds the header with the id, QR, AA, and opcode, RD and CD copied; fails when it has no room for it |
| Replies.Reply.Start | src/wire.rs:316-331 | the buffer holds header and question, with the OPT record's room set aside; fails exactly when they do not fit |
| Replies.Reply.constructor | src/wire.rs:334-359 | a fresh reply whose buffer stands for a message without records |
| Replies.Reply.SetRcode | src/wire.rs:376-379 | the low four bits of the fourth byte become 0 to 5 for the six codes, the rest of the message stays |
| Replies.Reply.RrHead | src/wire.rs:395-408 | the twelve bytes of the head stand behind the message exactly when head and data fit before the reserved tail; the message is as it was |
| Replies.Reply.AddA | src/wire.rs:412-422 | one address record more and its counter, or NoRoom with the message as it was |
| Replies.Reply.AddCname | src/wire.rs:425-437 | one CNAME record more and its counter, or the error of the name or NoRoom with the message as it was |
| Replies.Reply.AddSoa | src/wire.rs:442-474 | one SOA record more in the authority section and its counter, or an error with the message as it was |
| Replies.Reply.Finish | src/wire.rs:484-497 | the final bytes, within the limit, with the OPT record exactly when the query had one |
| Replies.BuildSoa | src/wire.rs:442-460 | the scratch buffer ends up with the whole SOA record, exactly for zones of at most 248 wire bytes |
| Replies.PutSoaName | src/wire.rs:501-507 | writes the prefix label and the zone as one name, or fails as specified |
| RoundTrips.EncodeQuery | src/wire.rs:511-539 | the buffer holds the query and its length is returned, or the first thing that goes wrong |
| RoundTrips.QueryParses | src/wire.rs:188-240 | the bytes of a query are parsed into exactly its id, flags, question, name, type, class and UDP size |
| RoundTrips.QueryRoundTrip | src/wire.rs:511-539 | every query that can be encoded is parsed back to id, type, class and UDP size, and its name to lower case without the final dot when it is printable |
| OnTheWire.QueryOnTheWire | src/wire.rs:511-539 | the query in bytes, that it is written exactly when the name is one and 16 bytes more than it, 11 more with a UDP size, have room, and which error it is else |
| RoundTrips.EntryReads | src/wire.rs:667-705 | the bytes of each record the builder writes are read back as that record |
| RoundTrips.FinalReads | src/wire.rs:708-730 | a finished reply decodes to its records, section by section |
| RoundTrips.ReplyRoundTrip | src/wire.rs:316-507 | for every parsed query and every sequence of A and CNAME calls and an SOA behind them, the finished bytes decode to id, flags and exactly the records whose calls succeeded, in order, under the question's name, unless a name is too long as text |
| RoundTrips.BareReads | src/wire.rs:334-359 | a bare reply decodes to its id and flags, with no record |
| RoundTrips.ReadableWhenAscii | src/wire.rs:645-650 | printable questions, ASCII targets and ASCII zones are read back exactly when the zone has at most 245 wire bytes; the hostmaster name keeps to 255 bytes exactly up to 244 |
| RoundTrips.AsciiReplyRoundTrip | src/wire.rs:316-507 | for a printable question, any calls with ASCII targets and an ASCII zone, the finished bytes decode to the records whose calls succeeded, unless an SOA record of a zone of more than 245 wire bytes is among them, and then they do not decode |
| Cnames.AddPairKeepsGood | src/cnames.rs:53-67 | no pair can make a table unsorted or give it a wildcard with an empty parent |
| Cnames.TableMeaning | src/cnames.rs:51-67 | after any list of pairs the exact table has under a name, and the wildcard table under a parent, the target of the last pair about it, stated by index; a pair is about a name up to white space around it, one final dot and letter case, and gives its second text trimmed, with one dot at its end, unless that is blank |
| Cnames.LookupMeaning | src/cnames.rs:75-96 | none for more than 256 bytes; else the target of the exact name, else of the longest wildcard the name lies properly below, else none |
| Cnames.LookupIgnoresCaseAndDot | src/cnames.rs:69-78 | neither letter case nor one final dot changes the answer |
| Cnames.CoversOnce | src/cnames.rs:82-94 | two wildcards of the same length never cover the same name |
| Cnames.ZonesMeaning | src/cnames.rs:115-130 | the zones repeat none, and are exactly the non-empty texts that are the parent of a wildcard or lie behind the first label of an exact name |
| Cnames.ZonesOrder | src/cnames.rs:115-130 | the zones of exact names come first, in the order of these, then the parents of the wildcards in theirs, each at its first occurrence |
| Cnames.ZoneOfMeaning | src/cnames.rs:135-145 | the zone of a name is the unique zone that holds it and is longer than every other that does; none exactly when no zone holds it |
| Cnames.HitsLieInZones | src/cnames.rs:75-145 | every name that gets a CNAME lies in a zone, except an exact key without a parent |
| Cnames.CNAMEs.constructor | src/cnames.rs:53-67 | every exact name and every wildcard has the target of the last of the pairs about it, by index into the pairs, and nothing else is in the table |
| Cnames.CNAMEs.Find | src/cnames.rs:75-96 | the walk over labels and scratch buffer computes the lookup |
| Cnames.CNAMEs.ListZones | src/cnames.rs:115-130 | the loops compute the de-duplicated list of zones |
| Cnames.CNAMEs.FindZone | src/cnames.rs:135-145 | the iteration computes the zone of the name |
| Cnames.LowerInto | src/cnames.rs:149-155 | the buffer holds the text in lower case, exactly when it fits |
| Servers.WroteStep | src/server.rs:174-178 | writing one more address succeeds exactly while another fits, and is one step of the whole list |
| Servers.WriteList | src/server.rs:173-179 | the addresses of one cluster are written in order until the reply is full |
| Servers.WriteMerged | src/server.rs:195-214 | what is streamed, with the array of addresses already written, is the first of the de-duplicated list that fit; the array is never what stops it |
| Servers.AnsweredGood | src/server.rs:128-190 | whatever is asked, the reply stays a well-formed message within its limit |
| Servers.QuestionLength | src/wire.rs:203-210 | a parsed question has 5 to 259 bytes |
| Servers.DomainMeaning | src/server.rs:73-84 | the domain is the text without white space around it, without one final dot and with small letters; `hop.local`, byte for byte, when nothing is left |
| Servers.Server.constructor | src/server.rs:73-84 | the domain is trimmed, without final dot, in lower case, and the default when empty |
| Servers.Server.SetCnames | src/server.rs:87-89 | the table is replaced, the domain stays |
| Servers.Server.Handle | src/server.rs:107-125 | the output buffer holds exactly the bytes of the specified reply, or nothing is answered; the length is at most 512, or what the query offers from 512 up to 1232 |
| Servers.Server.Fill | src/server.rs:128-150 | the reply becomes the specified decision: CNAME, domain, zone of CNAMEs, refused |
| Servers.Server.FillService | src/server.rs:153-190 | the reply becomes the specified answer for a name in the domain, without answers for types other than 1 and 255 |
| ServerProps.AnsweredForm | src/server.rs:107-190 | every reply is answers without rcode, a negative answer with one SOA, or an error without records |
| ServerProps.ReplyClassification | src/server.rs:107-190 | no reply has both answers and an SOA; it has an SOA exactly when it has no answers and its rcode is NOERROR or NXDOMAIN; answers come with NOERROR |
| OnTheWire.HandleContract | src/server.rs:107-125 | for every datagram and at least 512 bytes of room, on the bytes: it answers exactly from 12 bytes on with QR clear; the reply has the id, opcode, RD and CD of the query, QR and AA set, TC clear, the question as it came or none when it could not be read, at most 512 bytes or what the query offers from 512 up to 1232, gets no answer when fed back, and ends with the eleven bytes of an OPT record exactly when the query had one |
| OnTheWire.ReplyBytes | src/server.rs:107-214 | what goes back for every datagram, table, cache and buffer, byte for byte and in numbers: nothing, a bare header with code 4 or 1, or header, question, records and OPT record, with the size limit of 512 up to 1232, types 1 and 255 for addresses, classes 1 and 255, types 1, 5, 6 and 41 and TTL 5 of the records, and codes 0, 2, 3 and 5 |
| OnTheWire.CodeOnTheWire | src/wire.rs:72-88 | the low four bits of the fourth byte of every reply: 4 exactly for another opcode, 1 exactly when no question can be read, 5 exactly when the question is not for this server, else 0, 2 or 3 |
| ServerProps.AddressAnswer | src/server.rs:153-214 | a query of type 1 or 255 for a name in the domain gets exactly the first min(n, k) addresses with k = (limit - 12 - question - 11 with EDNS) / 16, and k is at most 75 |
| ServerProps.ServiceDecision | src/server.rs:153-190 | the whole reply for a name in the domain: the first min(n, k) addresses for types 1 and 255, when there are any; else the SOA record with NOERROR or NXDOMAIN as the name exists or not; SERVFAIL when that has no room |
| ServerProps.TypeDecides | src/server.rs:165-190 | types 1 and 255 get the addresses; any other type gets no answer, and a code and SOA record that depend on existence and room alone |
| ServerProps.NoFalseNodata | src/server.rs:165-190 | a name with n addresses gets between min(n, 14) and n of them from 512 bytes of room on |
| ServerProps.AnswersNeverRepeat | src/server.rs:193-214 | when no list of the cache repeats an address, the answers to an address query do not |
| ServerProps.RepliesNeverRepeat | src/server.rs:107-214 | then no reply to any datagram repeats a record |
| ServerProps.NegativeFits | src/wire.rs:442-474 | the SOA record fits exactly when the zone is a wire name of at most 248 bytes and Q + 3L + 60, plus 11 with EDNS, is within the limit |
| ServerProps.ShortZonesNeverFail | src/wire.rs:442-474 | zones of at most 62 wire bytes fit for every question, from 512 bytes of room on |
| ServerProps.LongZonesAlwaysFail | src/wire.rs:443 | zones of more than 248 wire bytes never fit, at no limit |
| ServerProps.ServFailExactly | src/server.rs:121-123 | a name in the domain without an answer gets code 2 exactly when its SOA record does not fit, and then the reply has no record |
| ServerProps.AliasFits | src/wire.rs:425-437 | the CNAME record fits exactly when the target is a wire name and Q + L + 28, plus 11 with EDNS, is within the limit |
| ServerProps.DecisionElsewhere | src/server.rs:138-150 | the whole reply for a name with a CNAME, in the longest zone of CNAMEs that holds it, or in none, with the byte counts at which it becomes SERVFAIL |
| ServerProps.RefusedExactly | src/server.rs:128-150 | code 5 exactly for names that are no host name, classes other than 1 and 255, and names with no CNAME, outside the domain and every zone |
| ServerProps.NxDomainExactly | src/server.rs:153-190 | for a name in the domain code 3 means exactly that it does not exist |
| ServerProps.ExistenceIgnoresType | src/server.rs:165-188 | whether a name exists does not depend on the query type |
| ServerProps.CodeExactly | src/server.rs:107-190 | the code read from the reply for a name in the domain: 0 with addresses for types 1 and 255; else 2 when the SOA record has no room; else 0 or 3 as the name exists or not |
| NxDomains.AskableMeaning | src/wire.rs:188-268 | the texts that some parsed query asks for are exactly the lower-case ones without final dot whose labels are printable and within the limits |
| NxDomains.PlacesMeaning | src/server.rs:153-171 | the domain exists without address; job.domain exists when some cluster knows the job or has its name, with the merged addresses; job.cluster.domain when that cluster knows the job, with its addresses |
| NxDomains.CodeEverywhere | src/server.rs:107-190 | the code read from the reply, 0, 2, 3 or 5, for every host name in class 1 or 255: with a CNAME, in the domain, in a zone of CNAMEs, or in none |
| NxDomains.AnsweredExactly | src/server.rs:107-190 | some query for a name gets NOERROR exactly when a CNAME with room takes it, or no CNAME does and it exists in the domain with an address or with room for its SOA record |
| NxDomains.NxDomainSubtree | src/server.rs:20-22 | for every name that gets NXDOMAIN, in the domain or in a zone of CNAMEs: some query for a name below it gets NOERROR if and only if an exact CNAME key below it can be asked for with room, or a wildcard with its parent at or below it takes a name that can be, or the cache answers a name below it |
| NxDomains.NxDomainPlaces | src/server.rs:141-188 | a name that gets NXDOMAIN has no CNAME, and lies in the domain without existing, or outside it in a zone of CNAMEs |
| NxDomains.CacheBelowInDomain | src/server.rs:153-188 | the cache answers a name below a name in the domain if and only if some cluster at or below it holds a job that no CNAME takes, that a question can carry, with an address or with room for its SOA record |
| NxDomains.CacheBelowElsewhere | src/server.rs:141-188 | the cache answers a name below a name outside the domain if and only if the domain lies below that name and the cache answers anything; the domain itself when it can be asked for, has no CNAME and room for its SOA record |
| NxDomains.NxDomainWithoutKeys | src/server.rs:20-22 | for a name in the domain that gets NXDOMAIN and has no CNAME key below it: some query below it gets NOERROR if and only if some cluster at or below it holds such a job |
| ReplyExamples.DottedClusterHides | src/server.rs:153-190 | a cache with a dotted cluster and two parsed queries: the upper name gets NXDOMAIN, the name below it an address |
| ReplyExamples.WildcardHides | src/cnames.rs:82-94 | an empty cache, one wildcard and two parsed queries: the upper name gets NXDOMAIN, the name below it its CNAME |
| ReplyExamples.ZoneHides | src/server.rs:144-147 | a domain below a zone of CNAMEs and two parsed queries, whatever the cache: the zone gets NXDOMAIN, the domain below it NODATA |
| NxDomains.HiddenClustersAreDotted | src/server.rs:20-22 | a cluster at or below a name that does not exist has a dot in its own name |
| NxDomains.NoCnameBelow | src/cnames.rs:75-96 | with no key below a name, no name below it has a CNAME |
| NxDomains.NxDomainIsSafe | src/server.rs:153-190 | with cluster names of one label and no CNAME key below it, for a name in the domain that gets NXDOMAIN every query for a name below it gets NXDOMAIN, or SERVFAIL |
| ReplyExamples.LongZoneExample | src/wire.rs:443 | a domain of 249 wire bytes and a parsed query for it with the largest EDNS size: Q + 3L + 71 is within 1232, and the reply is SERVFAIL, whatever the cache |
| Builders.BuildJobs | src/watcher.rs:409-433 | the loops compute the view of the cluster, sorted, whose rows are those of `JobViewMeaning`, `JobViewGrows` and `ViewNames` |
| Builders.BuildJob | src/watcher.rs:436-455 | the loops compute the list of one job, whose addresses and order are those of `JobViewMeaning` and `JobViewGrows` |
| Builders.BuildsAgree | src/watcher.rs:409-455 | the list of one job is the one the whole view holds under its lower-case name, or empty when it holds none |
| Builders.BuiltListsMeaning | src/watcher.rs:389-433 | every list of the view is non-empty and repeats no address |
| Builders.JobViewMeaning | src/watcher.rs:370-455 | an address is in the list of a job exactly when a listed task in the state running has its name in any letter case, and it is the slot address of its pid, when the agent is the local node, the driver is `hop` and the pid is from 1 to 255, or else what the endpoint of the first agent with that id gives |
| Builders.JobViewGrows | src/watcher.rs:436-455 | one more task adds its address behind the others, unless it is there; with the empty start this fixes the order of the list |
| Builders.JobViewStarts | src/watcher.rs:436-455 | without agents the list is empty, and an agent that did not answer or has no task adds nothing |
| Builders.ViewNames | src/watcher.rs:409-433 | the names in the view are in lower case, and those of the jobs with an address |
| Builders.SetAfterReplace | src/watcher.rs:123-130 | setting a job right after replacing the view it was built with changes no address |
| Watchers.InvKept | src/watcher.rs:169-182 | every call keeps: due exactly when something is pending, no listed jobs beside a full refresh, listed jobs distinct, in lower case and at most 32 |
| Watchers.NextMeaning | src/watcher.rs:219-239 | no refresh before discovery, no refresh of no jobs, an untimed wait only with nothing pending, a timed one only into the future, and a refresh takes everything that was pending |
| Watchers.DueNeverPostponed | src/watcher.rs:259-341 | neither an event nor a failure moves pending work later than max(its due time, now) |
| Watchers.InitialMeaning | src/watcher.rs:186-197 | a new watcher asks for the name of its cluster at once and has nothing pending |
| Watchers.RetryMeaning | src/watcher.rs:219-256 | after a failed discovery the next one is due at min(now + interval, 2^64 - 1), and until then the watcher waits for that moment |
| Watchers.DiscoveredMeaning | src/watcher.rs:243-251 | the cluster name is the trimmed text in lower case; a blank one is refused and counts as a failure |
| Watchers.EventMeaning | src/watcher.rs:142-291 | the whole state after an event, by its topic: a ping makes everything due at once; a status or agent event and an unreadable one make everything pending, a job or task event its job, unless listed in any letter case, and everything instead of a 33rd; the due time stays or is min(now + debounce, 2^64 - 1); other topics and empty names change nothing |
| Watchers.FullUpdateMeaning | src/watcher.rs:304-314 | refused without a cluster name; put into a cache, the update gives the cluster exactly the jobs that have an address, under names without capitals, and leaves the other clusters |
| Watchers.JobUpdateMeaning | src/watcher.rs:317-328 | refused without a cluster name; put into a cache, the update sets the list of the job under its name without capitals, and nothing else |
| Watchers.LostMeaning | src/watcher.rs:296-300 | after a break there is nothing to do |
| Watchers.FallBack | src/watcher.rs:333-341 | after a failed refresh the next thing done is a full one, at the earlier of what was pending and, behind a job refresh, now, behind a full one, min(now + interval, 2^64 - 1); until then the watcher waits |
| Watchers.Watcher.constructor | src/watcher.rs:186-197 | undiscovered, nothing pending, discovery allowed at once |
| Watchers.Watcher.NextAction | src/watcher.rs:219-239 | discovery first, else the pending refresh when it is due, which empties what is pending, else a wait for that moment: the whole new state and the action |
| Watchers.Watcher.OnDiscoverFailed | src/watcher.rs:254-256 | only the time of the next discovery changes, to now and the interval |
| Watchers.Watcher.OnDiscovered | src/watcher.rs:243-251 | trimmed and in lower case, or refused when empty and tried again after the interval |
| Watchers.Watcher.OnEvent | src/watcher.rs:259-285 | the whole new state: a ping makes everything due at once, other events wait from the first one on, and a 33rd job turns the list into a full refresh |
| Watchers.Watcher.PendAll | src/watcher.rs:287-291 | a full refresh is pending instead of the listed jobs, at the due time there was or after the debounce |
| Watchers.Watcher.OnLost | src/watcher.rs:296-300 | nothing is pending |
| Watchers.Watcher.OnRefreshFailed | src/watcher.rs:333-341 | a full refresh is pending instead of the listed jobs, at the earlier of the due time there was and the one for this failure |
| Watchers.Watcher.OnFullState | src/watcher.rs:304-314 | the update replaces the view of the watcher's cluster by the built one, in a sorted table |
| Watchers.Watcher.OnJobState | src/watcher.rs:317-328 | the update sets the built list under the lower-case name |
| Watchers.Apply | src/watcher.rs:125-130 | the cache becomes the one with the update applied |
| Watchers.Drain | src/host.rs:208-220 | the queue is empty and the cache has all of it applied, in order |
| Federation.OwnPart | src/watcher.rs:123-130 | in every interleaving of the peers' queues, a cluster's part is what its own peer's updates alone give |
| Federation.Confluence | src/cache.rs:84-105 | any two interleavings of the peers' queues end in identical caches |
| Federation.WatcherUpdatesAreClean | src/watcher.rs:304-328 | no update of a watcher repeats an address in a list |
| Federation.CleanUpdatesKeepClean | src/cache.rs:84-105 | a cache filled by such updates never repeats an address in a list |
| Federation.BuiltCachesAreClean | src/watcher.rs:304-328 | a cache built by any sequence of watchers' updates is sorted and repeats no address in any list |
| NoMissedUpdate.StepKeepsBase | src/host.rs:249-377 | every step of the protocol keeps the watcher's invariant, that nothing is pending while a refresh runs, and that a connected stream with an unheard break holds an event covering everything behind it |
| NoMissedUpdate.StepKeepsSafe | src/host.rs:249-377 | every step keeps that each job is right in the cache or covered by something that will refresh it |
| NoMissedUpdate.NoMissedUpdate | src/watcher.rs:219-341 | in every run, at every moment, for every job with a name: the cache with the updates on their way has its actual addresses, or a pending or running refresh, or the stream behind its last break, covers it, or the stream awaits its ping |
| NoMissedUpdate.AtRestTheCacheIsTrue | src/host.rs:249-377 | connected and with nothing unheard, pending, in progress or on its way, the cache holds the actual addresses of every job with a name |
| NoMissedUpdate.WatcherInvariantInRuns | src/watcher.rs:169-182 | the watcher's invariant holds in every run, and a busy driver has the cluster's name |
| Progress.RestIsReachable | src/host.rs:249-377 | every run of a cluster with a name can go on, by moves of the driver, the clock and a connection alone, to a state at rest in which the cache has the actual addresses of every job with a name |
| Counterexamples.AccountedExactly | src/watcher.rs:154-165 | a job is accounted for in this sense in every run exactly when its name is not empty |
| Counterexamples.EmptyNameMissed | src/watcher.rs:158-160 | a run that ends at rest without the address of a running task whose job has the empty name |
| Timing.DueSoon | src/watcher.rs:219-341 | in every run pending work has a due time, never later than now plus the longer waiting time |
| Timing.NeverPostponed | src/watcher.rs:259-341 | in every run no step moves the due time of pending work later than max(its due time, now), and only a ping heard when it is overdue moves it later at all, to now |
| Timing.TwoRefreshesApart | src/watcher.rs:219-341 | in every run two consecutive refreshes with no ping between them are the shorter waiting time apart, unless the first is a failed job refresh and the second a full one, or the clock stands at its last moment |
| Counterexamples.TwoRefreshesAtOnce | src/watcher.rs:333-341 | a run with both waiting times positive in which a job refresh fails and the full one begins at the same moment |
| Timing.ThreeRefreshesSpan | src/watcher.rs:219-341 | in every run three consecutive refreshes with no ping between them span at least the shorter waiting time, unless the clock comes to its last moment |
| Peers.SeenByOthers | src/host.rs:249-377 | what a peer does to the queue, the cache and the clock is for every other peer nothing, or a move of the protocol with an update that is not its own |
| Peers.AllAccounted | src/host.rs:249-377 | in every run of all peers together, every job with a name is accounted for in every cluster |
| Peers.AllAtRestTheCacheIsTrue | src/cache.rs:45-62 | with all peers at rest each cluster's list of a job is the actual one, and the merged list has exactly the addresses at which its tasks run in any cluster, each once |
| Progress.JointRestIsReachable | src/host.rs:249-377 | every run of all peers together can go on until all are at rest, with the clusters as they are |
| Progress.RestExists | src/host.rs:249-377 | for any clusters with distinct names in any state there is a run after which all their peers are at rest |
| EndToEnd.HandleDecodes | src/server.rs:107-125 | for every parsed query and every cache, the answer's bytes decode to the records of the reply with the query's id, unless a name is too long as text |
| EndToEnd.AddressesOverTheWire | src/server.rs:153-214 | an address query in bytes decodes to A records of exactly the first min(n, k) addresses the cache has, with TTL 5, under the name asked; k is (limit - 12 - question - 11 with EDNS) / 16, at least 14, with the limit written out for every offered size |
| EndToEnd.AnswersAtRest | src/host.rs:249-377 | once a run is at rest, the bytes that answer a query for a job of the cluster decode to A records of the addresses at which its tasks run, as far as they fit, or to no answer when there are none |
| EndToEnd.FederatedAnswersAtRest | src/server.rs:5-7 | once all peers are at rest, the bytes that answer a query for a job without cluster decode to A records of the addresses at which its tasks run in any cluster, each once, as far as they fit |
| EndToEnd.WatchersNeverRepeat | src/server.rs:193-214 | no reply from a cache built by watchers' updates, in whatever order, repeats a record |

## Left out

- Sockets, threads, HTTP, the text of the event stream, logging and the binaries: of src/host.rs only the order of
  actions is modelled, `watch`, `refresh` and `read_events` as steps of the protocol and `drain` as a method. A watcher
  whose reader thread is gone stops; that is not a step.
- The client library (`Event::topic`, the stream, the agents' interface) is not part of this model: an event comes
  already read into its topic.
- Failing allocations. A full rebuild that fails is only logged and not queued again (src/host.rs:342), so
  `NoMissedUpdate` is stated without it.
- NoMissedUpdate: two peers that report the same cluster name overwrite each other's view; names are taken as distinct.
- `src/config.rs`: the domain and the pairs of the CNAME table are inputs.
- `extract_ip` and `Local::slot_ip` are parameters: any function from an endpoint to an optional address, and from a
  slot to an address.
- That text from outside is valid UTF-8 is not stated; on such text trimming by bytes is trimming by characters.
- Caches.Cache.ReadMerged: the lazily produced lists of `merged` are one sequence here, and the tables inside the cache
  are values that are moved in whole, not objects that are changed in place through `get_mut`.
- RoundTrips.ReplyRoundTrip: records written after the SOA are not covered, since the builder does not put sections in
  order; the server never writes one.
- Replies.Reply.AddA: requires fewer than 65535 answers, as AddCname and AddSoa do for their sections; the original
  stops with an overflow at the last one, which no reply of at most 1232 bytes reaches (`CountsFit`).
- `Reply::set_truncated`, which nothing calls, and the accessors of `Message`.
- `OLD/`, the benchmarks, and claims about speed or allocation.
