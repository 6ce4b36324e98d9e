# sugar-datastore core, modelled in Dafny

This project models the core of the OLPC/Sugar datastore
(`src/olpc/datastore`): the facade that sits above several backing stores.
The model covers these parts:

- **The mount table.** Registering backends, `mount`, `unmount`, `pause`,
  `unpause`, `connect_backingstore`, and resolving a mount id or a
  property dictionary to a store.
- **The uid resolver.** `_mountpointFor` scans every mounted store, breaks
  ties between stores holding the same object by `(int(vid), mtime)` under
  a stable sort, and caches the answer.
- **The revision protocol.** `checkin`, `checkout`, `copy` and `get`, each
  with its split between stores that keep versions and stores that do not.
- **Search.** `find` and `get_uniquevaluesfor`:
  - the single-store fast path, and the multi-store fan-out;
  - the merge by id that keeps the greater `vid`;
  - the stable multi-key `order_by` sort (a leading `-` reverses a key);
  - the reporting loop that tags each entry with `uid` and `mountpoint`.
- **The property model** (`model.py`). The value logic of the Property,
  Text, Date, Number and Binary classes, the kind registry,
  `Content.get_property` and `suggestName`.
- **Utilities** (`utils.py`): `options_for` and `timeparse`.

The backing stores are not modelled. They are oracles, the function-typed
fields of a `Stores` record. Each store call the facade makes is recorded
in a log kept in the `DataStore` state, and every oracle sees the log so
far. Each operation returns a `Step` holding its outcome and the new
state. Effects that happen before an exception are kept, as they are in
Python.

Python values are a `PyValue` datatype. Python 2 `cmp` is modelled as
follows:
- the type rank is None < numbers < datetime < str;
- numbers compare by value;
- strings compare lexicographically by code point;
- datetimes compare field by field.

Exceptions are the `Err` side of a `Result`.

Modules, one per file: `Outcomes` (Option/Result), `PyStrings`,
`PyValues`, `DateTimes`, `Base64`, `Utils`, `Model`, `DataStores` (the
state and store interface), `Mounts`, `Resolver`, `Protocol`, `Sorting`,
`Merging`, `Search`.

## Model

| member | source | states |
|---|---|---|
| Utils.OptionsFor | src/olpc/datastore/utils.py:60-76 | Without `invert`, a key is in the result iff the prefix plus it is in the dictionary, and it keeps that entry's value. With `invert`, exactly the entries whose key does not start with the prefix are kept. |
| Utils.OptionsForDoctest | src/olpc/datastore/utils.py:60-76 | The docstring example: the `app.b.` options of `{app.a.option: 1, app.b.option: 2}` are `{option: 2}`. |
| Utils.OptionsForEmptyPrefix | src/olpc/datastore/utils.py:69-76 | With the empty prefix, the plain call copies the dictionary and the inverted call returns nothing. |
| Utils.OptionsForPartition | src/olpc/datastore/utils.py:60-76 | The plain and inverted calls split the dictionary into two disjoint parts. Restoring the prefix on the plain part and uniting the two gives the dictionary back. |
| Utils.TimeParse | src/olpc/datastore/utils.py:114-153 | `timeparse` with the default format yields only valid datetimes. |
| Utils.TimeParseSuffix | src/olpc/datastore/utils.py:125-153 | Whole-second isoformat text followed by a suffix is handled by suffix. A `.` with 1-6 digits or a `,` with 3 digits becomes microseconds. Any other suffix raises ValueError. |
| Utils.TimeParseIsoFormat | src/olpc/datastore/utils.py:125-140 | `timeparse(dt.isoformat()) == dt`, microseconds included. |
| Utils.TimeParseMillis | src/olpc/datastore/utils.py:141-150 | The logging module's `,mmm` suffix is read as `mmm` milliseconds. |
| Utils.FractionMicros | src/olpc/datastore/utils.py:135-138 | The microseconds of a decimal fraction lie in [0, 10^6). |
| DateTimes.Strptime | src/olpc/datastore/utils.py:113 | `strptime` with `%Y-%m-%dT%H:%M:%S` yields a valid datetime with zero microseconds. Otherwise it reports the unconverted trailing text, which is a suffix of the input. |
| DateTimes.StrptimeIsoFormat | src/olpc/datastore/model.py:173-187 | `strptime` reads back what `isoformat` wrote, truncated to whole seconds. |
| DateTimes.StrptimeIsoFormatRest | src/olpc/datastore/utils.py:125-128 | Text following the whole seconds of an isoformat is reported as unconverted data. |
| DateTimes.MatchIsoFormat | src/olpc/datastore/model.py:173 | The format's expression matches exactly the first 19 characters of an isoformat. |
| DateTimes.IsoFormat | src/olpc/datastore/model.py:200 | `isoformat` has 19 characters, or 26 when there are microseconds. |
| Base64.EncodedLength | src/olpc/datastore/model.py:218 | The unbroken encoding has 4 characters per started triple of bytes. |
| Base64.EncodeCodeChars | src/olpc/datastore/model.py:218 | The encoder writes only base64 alphabet characters and `=` padding, so decoding skips none of them. |
| Base64.EncodeAppend | src/olpc/datastore/model.py:218 | A whole number of triples encodes independently of the bytes after it, which is why cutting lines at 57 bytes is safe. |
| Base64.EncodeLines | src/olpc/datastore/model.py:218 | `encodestring` is empty iff its input is, and otherwise ends in a newline. |
| Base64.DecodeEncode | src/olpc/datastore/model.py:217-218 | Decoding the unbroken encoding of any bytes gives the bytes back. |
| Base64.CleanEncodeLines | src/olpc/datastore/model.py:218 | Dropping the line breaks from `encodestring` leaves the unbroken encoding. |
| Base64.DecodeEncodeLines | src/olpc/datastore/model.py:217-218 | `s.encode('base64').decode('base64') == s` for every byte string. |
| Base64.SextetRoundTrip | src/olpc/datastore/model.py:217-218 | Each 6-bit value's character decodes back to that value. |
| PyValues.Cmp | src/olpc/datastore/datastore.py:439 | Python 2 `cmp` gives -1, 0 or 1. |
| PyValues.CmpAntisymmetric | src/olpc/datastore/datastore.py:527 | `cmp(a, b) == -cmp(b, a)`. |
| PyValues.CmpReflexive | src/olpc/datastore/datastore.py:527 | `cmp(a, a) == 0`. |
| PyValues.CmpTransitive | src/olpc/datastore/datastore.py:527 | `cmp` is transitive, and strictly so when either step is strict. |
| PyValues.CmpStrings | src/olpc/datastore/datastore.py:439 | Two strings compare equal iff they are the same string. |
| PyValues.IntOf | src/olpc/datastore/datastore.py:215-216 | `int(v)` gives an int unchanged. None and datetimes raise TypeError. |
| PyValues.IntOfDecimal | src/olpc/datastore/datastore.py:215-216 | `int(str(n)) == n` for every integer. |
| PyStrings.Split | src/olpc/datastore/datastore.py:510 | `split(',')` yields at least one part and no part holds the separator. |
| PyStrings.JoinSplit | src/olpc/datastore/datastore.py:510 | Joining the parts of a split with the separator gives the text back. |
| PyStrings.LStrip | src/olpc/datastore/datastore.py:510 | `lstrip()` gives a suffix of the text that does not start with whitespace. Everything it removed was whitespace. |
| PyStrings.RStrip | src/olpc/datastore/datastore.py:510 | `rstrip()` gives a prefix of the text that does not end with whitespace. Everything it removed was whitespace. |
| PyStrings.Strip | src/olpc/datastore/datastore.py:510 | `strip()` gives text that neither starts nor ends with whitespace. It is empty only for all-whitespace text. |
| PyStrings.StripSlice | src/olpc/datastore/datastore.py:510 | `strip()` keeps a slice of the text and cuts off only whitespace on either side. |
| PyStrings.ParseSpaceAfterSign | src/olpc/datastore/datastore.py:215-216 | `int` skips whitespace between the sign and the digits: `int(" - 5 ") == -5`. |
| PyStrings.ParseIntDecimal | src/olpc/datastore/datastore.py:215-216 | The decimal digits of an integer parse back to that integer. |
| Model.SetValue | src/olpc/datastore/model.py:152-218 | A plain, text or number property stores its value unchanged. A date stores the isoformat of a valid whole-second datetime. A binary value is accepted iff it is a byte string. |
| Model.NewProperty | src/olpc/datastore/model.py:152-155 | A new property has the given class, key and kind. It is built iff its class's setter accepts the value. |
| Model.GetValue | src/olpc/datastore/model.py:179-218 | Plain and text read their value back unchanged. A date with an empty column reads as None, and otherwise as a valid whole-second datetime. A number read succeeds iff `float` of the column does. A binary property decodes to a byte string. |
| Model.Marshall | src/olpc/datastore/model.py:160-200 | A failing read makes `marshall` fail. A date reading None raises AttributeError (`None.isoformat`). A date reading a datetime marshalls to its isoformat with `T`. Any other class marshalls to `str` of the value read. |
| Model.DatePropertyRoundTrip | src/olpc/datastore/model.py:172-200 | A date property built from a datetime reads back as that datetime at whole seconds, and marshalls to its isoformat. |
| Model.DatePropertyFromText | src/olpc/datastore/model.py:189-198 | Setting a date from its formatted text stores what setting it from the datetime stores. |
| Model.DatePropertyRejects | src/olpc/datastore/model.py:189-193 | Text that is not exactly the date format raises ValueError. |
| Model.BinaryPropertyRoundTrip | src/olpc/datastore/model.py:212-218 | A binary property reads back exactly the bytes it was given. |
| Model.NumberPropertyValue | src/olpc/datastore/model.py:203-208 | A number property reads back the float of what was stored. |
| Model.Register | src/olpc/datastore/model.py:40 | Registering a kind maps it to the class and leaves every other kind as it was. |
| Model.ByKind | src/olpc/datastore/model.py:41 | Lookup succeeds iff the kind is registered, and gives its class. Otherwise it raises KeyError. |
| Model.DefaultRegistry | src/olpc/datastore/model.py:336-340 | The prepared registry holds exactly the kinds date, number, text and binary. |
| Model.ByKindRegister | src/olpc/datastore/model.py:40-41 | Looking up a kind just registered gives its class. Other kinds are unaffected. |
| Model.DefaultRegistryKinds | src/olpc/datastore/model.py:336-340 | Each class's default kind name looks up to that class. `string` is not registered. |
| Model.GetProperty | src/olpc/datastore/model.py:48-56 | A present key reads through its class's getter. An absent key gives the default, or AttributeError without one. |
| Model.SplitExt | src/olpc/datastore/model.py:89 | The root and extension concatenate back to the path. |
| Model.SplitExtBasename | src/olpc/datastore/model.py:88-90 | A name without slashes has an extension iff it holds a dot. |
| Model.SuggestName | src/olpc/datastore/model.py:77-100 | A truthy filename is cut to its basename. The basename is returned alone when it holds a dot, and with `.ext` appended when `ext` is truthy. Otherwise the result is (None, None). Without a filename, a truthy `ext` is returned alone. Failing that, the truthy extension guessed from a truthy mimetype is returned, else None. |
| Model.StringOfBytesOf | src/olpc/datastore/model.py:217-218 | Byte strings convert to bytes and back unchanged. |
| DataStores.GetProp | src/olpc/datastore/model.py:48-56 | `get_property` on a result: a present key gives its value. An absent key gives the default, or AttributeError without one. |
| DataStores.Pop | src/olpc/datastore/datastore.py:174 | `dict.pop(key, None)` gives the value, or None when the key is absent, and removes exactly that key. |
| Mounts.RegisterBackend | src/olpc/datastore/datastore.py:55-56 | Appends the backend and changes nothing else. |
| Mounts.FirstParsing | src/olpc/datastore/datastore.py:156-170 | Picks the first registered backend whose `parse(uri)` holds, or none when none does. |
| Mounts.ConnectBackingstore | src/olpc/datastore/datastore.py:156-170 | Without a parsing backend, nothing happens and None is returned. With one, None is never returned. The connection succeeds iff the constructor succeeds and `initialize_and_load` does not raise. A failing constructor changes nothing and its error propagates. Otherwise the initialization is logged. The table, root and cache are unchanged. |
| Mounts.Mount | src/olpc/datastore/datastore.py:62-86 | Without a parsing backend, the result is the empty id. A failing connection propagates its error. Otherwise the store built is filed under its own id, which is returned, and the previous holder of that id is stopped. The mount fails with that stop, and only then. The root is set if it was unset. |
| Mounts.MountThenResolve | src/olpc/datastore/datastore.py:62-86 | A store that is built and initialized under a fresh id is mounted: its id is returned, `_resolveMountpoint` of that id gives the store with the backend's versions flag, and the only call made is its initialization. |
| Mounts.MountWellFormed | src/olpc/datastore/datastore.py:62-86 | Mounting keeps the table well formed. |
| Mounts.RemountReplaces | src/olpc/datastore/datastore.py:76-81 | Mounting under an id in use stops the old store first and then replaces it. |
| Mounts.Unmount | src/olpc/datastore/datastore.py:103-113 | Removes exactly the id and always succeeds; a failing `stop` is swallowed. An unknown id changes nothing. |
| Mounts.UnmountWellFormed | src/olpc/datastore/datastore.py:103-113 | Unmounting keeps the table well formed. |
| Mounts.Selected | src/olpc/datastore/datastore.py:131-152 | The stores `pause`/`unpause` act on. They raise KeyError iff a listed id is not mounted. A non-empty list gives the listed stores, elementwise and in list order. No list, or an empty one, gives every mounted store in table order. |
| Mounts.LookupAll | src/olpc/datastore/datastore.py:415-416 | `[table[id] for id in ids]` raises KeyError iff some id is missing, and is otherwise elementwise. |
| Mounts.CallEach | src/olpc/datastore/datastore.py:131-152 | The loop succeeds iff no call raises, and then logs one call per store in order. Otherwise the first call that raises ends the loop: the log gains the calls up to and including that one, and no later call is made. |
| Mounts.Pause | src/olpc/datastore/datastore.py:131-142 | Stops the selected stores with the loop `CallEach` states: it succeeds iff no stop raises, and otherwise the first stop that raises ends it, with StoreFailure. The table is untouched. An unknown id raises KeyError before any call. |
| Mounts.SelectedEvery | src/olpc/datastore/datastore.py:136-139 | With no ids, every mounted store is selected. |
| Mounts.PauseStopsEvery | src/olpc/datastore/datastore.py:131-142 | A pause with no ids that succeeds stops every mounted store and makes no other call. |
| Mounts.Unpause | src/olpc/datastore/datastore.py:144-152 | Re-initializes the selected stores with the loop `CallEach` states: it succeeds iff no initialization raises, and otherwise the first one that raises ends it, with StoreFailure. The table is untouched. An unknown id raises KeyError before any call. |
| Mounts.PauseThenUnpause | src/olpc/datastore/datastore.py:131-152 | Pausing then unpausing the same stores, with nothing failing, stops each in turn and then initializes each in turn. |
| Mounts.ResolveMountpoint | src/olpc/datastore/datastore.py:172-183 | None gives the root, and a mounted id gives its store. Anything else raises KeyError. |
| Mounts.ResolveFromProps | src/olpc/datastore/datastore.py:172-183 | A dictionary is resolved by popping `mountpoint`, and loses exactly that key. |
| Resolver.InOrder | src/olpc/datastore/datastore.py:197 | The table's stores in iteration order. |
| Resolver.Holders | src/olpc/datastore/datastore.py:197-207 | The holders listed are exactly the stores answering with content, each with what it returned. |
| Resolver.HoldersInOrder | src/olpc/datastore/datastore.py:197-207 | Of two holders, the one scanned first is listed first. |
| Resolver.Scan | src/olpc/datastore/datastore.py:197-207 | The scan raises StoreFailure iff some store fails other than with KeyError. Otherwise it gives the holders, in scan order. |
| Resolver.ScanFound | src/olpc/datastore/datastore.py:197-207 | A store that holds the uid is listed before the rest of the scan. |
| Resolver.ScanTwo | src/olpc/datastore/datastore.py:197-207 | Two holders are listed in scan order. |
| Resolver.VersionKey | src/olpc/datastore/datastore.py:199-220 | The sort key is `(int(vid), mtime or 0)`. A missing vid raises AttributeError, and so does a versioning store's answer, which is a list. |
| Resolver.ManyAnswerBreaksSort | src/olpc/datastore/datastore.py:199-227 | Once a versioning store is among two or more holders, the tie-break raises. |
| Resolver.KeyCmpAntisymmetric | src/olpc/datastore/datastore.py:211-220 | `versionCmp` is antisymmetric. |
| Resolver.KeyCmpTransitive | src/olpc/datastore/datastore.py:211-220 | `versionCmp` is transitive. |
| Resolver.AllKeys | src/olpc/datastore/datastore.py:211-227 | The keys of all holders exist iff each holder's key does, and they are listed elementwise. |
| Resolver.FirstMinimal | src/olpc/datastore/datastore.py:226-230 | The position a stable ascending sort moves to the front: minimal, and strictly below every earlier key. |
| Resolver.Pick | src/olpc/datastore/datastore.py:209-235 | No holder gives None, and one holder gives it without reading any vid. Several holders give the first holder with the smallest `(vid, mtime)`; this fails iff some holder's key fails. |
| Resolver.MountpointFor | src/olpc/datastore/datastore.py:185-237 | A cached uid is answered from the cache with no other change. Otherwise a failing store raises StoreFailure, and without one the answer is the tie-break over the holders in table order. The answer is cached, and only the cache changes. None iff no store holds the uid. A store returned is mounted and holds the uid. |
| Resolver.PickFromTable | src/olpc/datastore/datastore.py:209-235 | The tie-break over the table's holders gives None iff no mounted store holds the uid, and otherwise a mounted holder. |
| Resolver.VersionKeyDecimal | src/olpc/datastore/datastore.py:215-216 | At a store without versions, a vid written as the decimal digits of `n` keys as `n`. |
| Resolver.PickSmallerVersion | src/olpc/datastore/datastore.py:226-230 | Of two holders, the one with the smaller vid wins, in either scan order. |
| Resolver.OlderRevisionWins | src/olpc/datastore/datastore.py:185-237 | Two stores without versions, holding vid 5 (scanned first) and vid 3, resolve to the vid-3 store. |
| Resolver.ResolveCaches | src/olpc/datastore/datastore.py:190-191 | Resolving the same uid again is answered from the cache, gives the same store and changes nothing. |
| Protocol.CheckinTarget | src/olpc/datastore/datastore.py:251-266 | The target is the file's hint when the file is named, the properties carry no `mountpoint`, and the hint resolves to a store. Otherwise it is the properties' `mountpoint`, or the root. The properties handed on lack `mountpoint`. |
| Protocol.Checkin | src/olpc/datastore/datastore.py:243-284 | An unknown mount raises KeyError and an unset root raises AttributeError. The log gains at most the one store call, carrying the properties without `mountpoint`. A picked store gets the write `WriteTo` states. On success the uid is cached to the store written to. |
| Protocol.WriteTo | src/olpc/datastore/datastore.py:268-284 | A store without versions gets `update` of a truthy uid, which returns that uid, or else `create`, which returns the new uid; the vid is "1" either way. A versioning store gets `checkin`, and its vid is returned through `str`. A store's error propagates with the call logged. The uid returned is cached to the store. |
| Protocol.CreateThenUpdate | src/olpc/datastore/datastore.py:268-283 | Properties without a uid create an object. Checking them in again with the uid returned updates that object on the same store. |
| Protocol.CheckinUpdatesInPlace | src/olpc/datastore/datastore.py:268-276 | With a truthy uid, a store without versions receives an update of that uid and returns it with vid "1". |
| Protocol.CheckinThenResolve | src/olpc/datastore/datastore.py:283 | A uid just checked in resolves to the store it was written to. |
| Protocol.Cleaned | src/olpc/datastore/datastore.py:301-304 | `x and str(x) or None` is None iff `x` is falsy or its `str` is empty. |
| Protocol.PlainCheckout | src/olpc/datastore/datastore.py:306-317 | A store without versions gives the content's properties with `mountpoint` set to its store, plus the file name. Absence, a missing uid and a missing file each raise their own error. |
| Protocol.Checkout | src/olpc/datastore/datastore.py:290-317 | Resolves `str(uid)` through the resolver, with the resolver's effect on the cache. A resolver error propagates, and an unowned uid raises KeyError. A versioning store checks out with the cleaned vid, target and dir. Another store answers as `PlainCheckout` of its `get`. |
| Protocol.CheckoutAfterCheckin | src/olpc/datastore/datastore.py:243-317 | Checking out a uid just checked in to a store without versions reads it from that store. |
| Protocol.Copy | src/olpc/datastore/datastore.py:355-382 | An unknown or missing mount raises KeyError. A None answer from the source raises AttributeError, a KeyError from it propagates, and so does any other store failure. Otherwise, unless both stores keep versions: a missing `uid` raises KeyError, and a file-less object raises AttributeError; else the target gets a create with the properties minus `uid`, and the new uid is returned with vid "1", or the store's error. Between two versioning stores: a raw copy, then the properties are written over it. The result is None, or the first failing call's error. |
| Protocol.CopyIsCreate | src/olpc/datastore/datastore.py:367-376 | Copying onto a store without versions makes the same call, with the same outcome, as checking the source's properties without their uid in to that store. |
| Protocol.GetScan | src/olpc/datastore/datastore.py:576-586 | The fallback scan gives the first store in table order whose answer is content, with every earlier store passed over. It gives None iff every store is passed over. Any other failure is raised at the first failing store. |
| Protocol.ScanShift | src/olpc/datastore/datastore.py:576-586 | Passing over the first store leaves the scan of the rest. |
| Protocol.Get | src/olpc/datastore/datastore.py:566-586 | The named store, or the root, is asked first, and its content is returned as is. Another failure of that store propagates. A KeyError or None falls back to the scan of all stores. An unknown mount raises KeyError, and an unset root raises AttributeError. |
| Protocol.GetFromSomeStore | src/olpc/datastore/datastore.py:566-586 | Content that `get` returns came from a mounted store or from the root, which may have been unmounted. |
| Sorting.ParseCriterion | src/olpc/datastore/datastore.py:522-525 | A criterion is descending iff its text starts with `-`. The key is the text without that `-`. |
| Sorting.ParseCriteria | src/olpc/datastore/datastore.py:521-525 | One criterion per `order_by` entry, in order. |
| Sorting.PropOrNone | src/olpc/datastore/datastore.py:526-527 | `get_property(key, None)` reads a missing property as None. |
| Sorting.CompareBy | src/olpc/datastore/datastore.py:519-531 | The comparator gives -1, 0 or 1. |
| Sorting.CompareByAntisymmetric | src/olpc/datastore/datastore.py:519-531 | The comparator is antisymmetric. |
| Sorting.CompareByTransitive | src/olpc/datastore/datastore.py:519-531 | The comparator is transitive, and strictly so when either step is strict, so it is a total preorder. |
| Sorting.SameTransitive | src/olpc/datastore/datastore.py:519-531 | Comparator equality is transitive. |
| Sorting.DescendingReverses | src/olpc/datastore/datastore.py:523-528 | A leading `-` reverses exactly that key's order. An ascending key compares its properties with `cmp`. |
| Sorting.SortByCorrect | src/olpc/datastore/datastore.py:533-535 | `list.sort(comparator)` gives a sorted permutation that keeps equal elements in their original order. |
| Sorting.SortBySorted | src/olpc/datastore/datastore.py:533-535 | The sorted list is in comparator order. |
| Sorting.SortByPermutes | src/olpc/datastore/datastore.py:533-535 | Sorting neither drops nor adds an element. |
| Sorting.SortByStable | src/olpc/datastore/datastore.py:533-535 | Elements the comparator calls equal keep their original relative order. |
| Sorting.InsertSorted | src/olpc/datastore/datastore.py:533-535 | Inserting into a sorted list keeps it sorted. |
| Sorting.InsertMultiset | src/olpc/datastore/datastore.py:533-535 | Inserting adds exactly the one element. |
| Sorting.InsertEquals | src/olpc/datastore/datastore.py:533-535 | Insertion puts the new element after all of its equals, and keeps every class of equals in order. |
| Merging.IndexOf | src/olpc/datastore/datastore.py:437 | `d.get(hit.id)`: the position of the entry with that id, or none when no entry has it. |
| Merging.MergeSpec | src/olpc/datastore/datastore.py:433-443 | The merge raises AttributeError iff two hits share an id and one lacks a vid. Otherwise it keeps one entry per id: the first hit carrying the greatest vid among the hits with that id. |
| Merging.NewerVersionKept | src/olpc/datastore/datastore.py:436-441 | Of two hits with vids 1 and 2, the vid-2 hit is kept whichever comes first. |
| Merging.MergeCompare | src/olpc/datastore/datastore.py:438-441 | A hit whose id is already merged replaces the entry only when the entry's vid compares below its own, and the merge invariant still holds. |
| Merging.MergeStep | src/olpc/datastore/datastore.py:436-441 | One turn of the loop keeps the merge invariant, or raises AttributeError exactly when the new hit pairs with a hit of its id that lacks a vid. |
| Merging.MergeNew | src/olpc/datastore/datastore.py:437-441 | A hit with a new id is appended, and the merge invariant still holds. |
| Search.Combine | src/olpc/datastore/datastore.py:480-484 | A query dictionary overrides every keyword it gives: the filters, `order_by`, `limit`, `offset`, `include_files` and `mountpoints`. A non-dictionary query is stored under `query` unless that keyword is given. |
| Search.Targets | src/olpc/datastore/datastore.py:415-416 | The stores searched are the listed ids after `str`, or every mounted store. An unmounted id raises KeyError. |
| Search.FindAll | src/olpc/datastore/datastore.py:429-431 | Each store's answer in order. The search fails iff some store's search fails, and then with the error of the first store that fails. |
| Search.Flatten | src/olpc/datastore/datastore.py:435-436 | The hits of every store, one store after another: as many hits as all stores gave, with hit `j` of store `i` after all the hits of the stores before it. |
| Search.SplitNames | src/olpc/datastore/datastore.py:509-510 | A string `order_by` becomes its comma-separated names, stripped. |
| Search.SortResults | src/olpc/datastore/datastore.py:506-537 | No ordering keeps the merge order. A list `order_by`, or a string one split at commas and stripped, gives the stable sort by its names. Any other truthy `order_by` raises TypeError once two results are compared. The result is always a permutation. |
| Search.Report | src/olpc/datastore/datastore.py:548-557 | An entry is the result's properties with `uid` set to its id. Its `mountpoint` is the single searched store when there is one with a non-empty id, and otherwise the store holding the result. |
| Search.EmitSpec | src/olpc/datastore/datastore.py:546-562 | Limit 0 reports every result. A positive limit `n` reports the first `n + 1`. A negative limit reports one. Each entry is its result's report. |
| Search.LimitOneReportsTwo | src/olpc/datastore/datastore.py:561-562 | A limit of 1 over three results reports two. |
| Search.SingleFind | src/olpc/datastore/datastore.py:410-412 | The single-store path succeeds whenever the store answers with results. It reports them in the store's own order, and every entry names the first result's store. An empty answer raises IndexError at `results[0]`, and a failing store's error propagates. |
| Search.MergeReport | src/olpc/datastore/datastore.py:433-562 | A shared id without a vid raises AttributeError. Without that, and without a malformed `order_by` to sort by, the report succeeds. It is the reporting loop over some merge of the hits, sorted when asked. Each entry is the report, naming its own store, of a winning hit: the first hit with the greatest vid among those with its id. No two entries share a uid. The report holds at most `limit + 1` entries, and when the limit is 0 or at least the number of hits, every hit's id is reported. |
| Search.ReportsCover | src/olpc/datastore/datastore.py:434-443 | With no more merged ids than the limit allows, every hit's id is the uid of some entry. |
| Merging.MergeLength | src/olpc/datastore/datastore.py:434-441 | The merge has at most one entry per hit. |
| Search.MultiFind | src/olpc/datastore/datastore.py:414-443 | A failing store fails the search with the first failing store's error. Otherwise the hits of all stores go through `MergeReport`, sorted iff two or more stores were searched. |
| Search.SortUnique | src/olpc/datastore/datastore.py:533-535 | Sorting keeps ids distinct. |
| Search.ReportWinners | src/olpc/datastore/datastore.py:546-562 | The report of a sorted merge has distinct uids, and each entry is a winning hit. |
| Search.Find | src/olpc/datastore/datastore.py:448-564 | An unmounted id raises KeyError. Exactly one selected store takes the single-store path, and any other number the multi-store path, with `order_by` defaulting to `[]`, `limit` to 65536 and the special keywords removed from the filters. The count equals the number of entries, and every entry carries `uid` and `mountpoint`. A positive limit caps the report at `limit + 1`. |
| Search.FindIgnoresOffset | src/olpc/datastore/datastore.py:486-491 | `offset` and `include_files` never change the answer. |
| Search.UnionAll | src/olpc/datastore/datastore.py:622-625 | The union of every store's values. It fails iff some store fails, and then with the error of the first store that fails. |
| Search.UnionByMember | src/olpc/datastore/datastore.py:622-625 | The union depends only on which stores are asked: it fails iff one of them fails, and otherwise holds the values some of them report. |
| Search.UniqueValuesFor | src/olpc/datastore/datastore.py:615-626 | An unmounted id raises KeyError. Otherwise the answer is the union over the selected stores that `UnionAll` states, and an empty list of mounts gives the empty set. |
| Search.UniqueValuesOfTable | src/olpc/datastore/datastore.py:615-626 | With no `mountpoints` entry, the call fails iff some mounted store fails, and otherwise returns exactly the values some mounted store reports. |

## Where the code and its documentation differ

The model follows the code in each case:

- **Tie-break.** `_mountpointFor` sorts ascending by `(vid, mtime)` and
  takes the first holder. It therefore picks the *oldest* revision,
  although its comment says "most recent" (`Resolver.OlderRevisionWins`).
- **Limit.** `find` passes `limit` to every store, including on the
  multi-store path. Its reporting loop stops only once the count
  *exceeds* the limit, so up to `limit + 1` entries come back
  (`Search.EmitSpec`).
- **Offset.** `offset` is read and never used (`Search.FindIgnoresOffset`).
- **Empty single-store search.** When exactly one store is searched and it
  finds nothing, `results[0]` raises IndexError (`Search.SingleFind`).
- **Malformed `order_by`.** An `order_by` that is neither a string nor a
  list is replaced by None. The comparator then fails when it iterates
  over None, so the query raises TypeError rather than ignoring the
  ordering (`Search.SortResults`).
- **Merge key.** The merge compares `vid` only. A missing vid raises
  AttributeError; there is no fall-back to `mtime` (`Merging.MergeSpec`).
- **`copy` between versioning stores** returns None (`Protocol.Copy`).
- **`copy` errors.** Its comment promises KeyError when the uid/vid pair
  is not found. The code never reads `vid`, and a source store answering
  None raises AttributeError at `content.properties` (`Protocol.Copy`).
- **Versioning stores in the tie-break.** A versioning store's `get`
  answers a list of revisions, which has no `get_property`. Once such a
  store is among two or more holders, the tie-break raises AttributeError
  (`Resolver.ManyAnswerBreaksSort`).
- **Whitespace after the sign.** Python 2's `int` skips whitespace between
  the sign and the digits, so a vid of `" - 5 "` keys as -5
  (`PyStrings.ParseSpaceAfterSign`).

## Left out

- D-Bus is left out: signals, the method decorators and argument
  conversion (`utils._convert`). Arguments arrive already as `PyValue`s.
- The extended attributes of a checked-in file are not read. The
  `mountpoint` hint they may carry is an input of `checkin`.
- The concrete backing stores, SQLAlchemy, `metadatastore.py` and the file
  accessors are not part of this model. Stores are the oracles of
  `Stores`.
- The uid cache is an unbounded map: least-recently-used eviction at 20
  entries is not modelled.
- Mount ids are compared as strings. The cache is keyed by `PyValue`, so
  Python's `1 == 1.0` key identity is not modelled.
- Model.SetValue: datetimes carry no time zone. An aware datetime's
  isoformat ends in `+HH:MM`, which the getter's `strptime` then rejects
  with ValueError; that path is not modelled.
- PyValues.StrOf: `str` of a text value is that text. In Python 2,
  `str(u'é')` of non-ASCII unicode text raises UnicodeEncodeError, so
  `Model.Marshall`, the checkout arguments and the `versions` str of a
  vid can raise where the model returns text; text is not split into
  byte strings and unicode strings.
- Model.Marshall: for the same reason, `marshall` of a non-ASCII text
  value returns the text, where Python 2's `str(self.value)` raises
  UnicodeEncodeError.
- Floating point is not modelled. `float(text)` and `str(float)` are
  parameters (`Runtime`), and so is `mimetypes.guess_extension`.
- Utils.FractionMicros: `int(float(frac)*1e6)` is idealised to the digits
  padded to six places. Binary rounding, which can lose one microsecond,
  is not modelled.
- PyValues.Cmp: comparing a datetime with a value of another type raises
  TypeError in Python; the model orders it by type rank instead.
- Mounts.ConnectBackingstore: the backend's constructor is an oracle, and
  its keyword options are not modelled.
- Dictionary iteration order of the mount table is a parameter (`order`,
  required to enumerate the ids once each).
- Search.MultiFind: the merged dictionary's `values()` order is computed
  as first-seen order, which CPython's hash order need not be. The
  contract of `Search.MergeReport` therefore fixes the order only up to
  the merge it reports (some merge of the hits, sorted when asked), and
  with no sort it fixes the entries, not their order.
- Search.Find: `limit` is an integer. Non-integer limits are not
  modelled.
- `find`'s special keywords are typed fields of `FindArgs`: `order_by`,
  `limit`, `offset`, `include_files` and `mountpoints`. The filters sent
  to the stores are the remaining keywords.
- Resolver.Pick: when several holders have no usable key, the error
  reported is that of the first such holder in scan order. Python's sort
  may evaluate another holder's key first and raise its exception instead
  (say ValueError for a non-integer vid, not AttributeError for a list).
- Base64.Decode: only the decoding of well-formed text matters to the
  model. Python's tolerance of some malformed padding is not modelled
  exactly.
- The rest of the facade is not modelled: `create`, `update`, `delete`,
  `tags`, `get_properties`, `get_filename`, `mounts`, `stop` and
  `complete_indexing`. They are single-store CRUD calls with no logic of
  their own beyond `_resolveMountpoint` and `get`, which are modelled.
- `create_uid`, `parse_timestamp_or_float`, `Singleton`, `partial`,
  `once`, `sanitize_dbus` and `setup.py` are left out. They are process
  plumbing, or they read the clock or the operating system.
