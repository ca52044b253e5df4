# ad3-player VAST engine — a Dafny model

This project models the ad-document engine of the ad3 video player. The player reads a VAST
document (the IAB Video Ad Serving Template, versions 1 to 4) in five steps:

1. A tolerant, regex-driven markup parser turns the XML text into a JSON tree of
   `{name: {attributes, value}}` nodes.
2. Each node is folded into a `Schema` by five name-class rules: repeatable key/value,
   key/value, direct extension with `$type`, opaque `$list` collection, or kept child.
3. Typed factories wrap the Schemas: `Vast`, `Ad`, `Creative`, `MediaFile`,
   `TrackingEvents`, `VideoClicks`, the sequence-sorted `Collection`, and the `seconds`,
   `offset` and `boolean` units.
4. The whole model is serialised to JSON text, and rebuilt from it through a
   name→factory registry.
5. Small, sequential bookkeeping consumes the model:
   - the tag cache over `localStorage`;
   - a tag's attempt, retry and validation state;
   - the split of a campaign's tags into guaranteed and other tags;
   - the choice of media file;
   - bracket-macro substitution;
   - tracking-event naming and its event table.

The project also covers the hex codec the build uses to embed the packed player, the query
helpers, and `extend_object`.

JavaScript values are one datatype, `Js.Value`:

- `undefined`, `null`, booleans, integers, strings, arrays, and objects tagged with their
  class.
- An object's properties are an ordered list, in the language's own-key order (index keys
  ascending first, then other keys in insertion order).
- Entities are objects of their class, as the source builds them.
- A thrown exception is the `Err` side of a `Result`, carrying the kind of error and its
  message.
- Operations are pure functions. Where the source mutates an object, the model returns the
  new object.
- The device (Flash, mobile), the clock, the random number, the store and the page-wide
  flags are parameters.

Modules follow the source files:

| module | file |
|---|---|
| `Strs`, `Js`, `Coerce`, `JsonText` | helpers the engine relies on (string built-ins, property order, loose equality, `JSON.stringify`/`JSON.parse`) |
| `XmlScan`, `XmlPrep`, `XmlParser` | `parser.js` |
| `SchemaRules` | `schema/rules.js` |
| `Schemas`, `SchemaFacts`, `SchemaQueries`, `SchemaClean` | `schema.js` |
| `Collections` | `collection.js` |
| `Vast`, `Ad`, `Creative`, `MediaFile`, `TrackingEvents`, `VideoClicks` | the factories, including `ads.js`, `creatives.js` and `mediafiles.js` |
| `Units` | `seconds.js`, `offset.js`, `boolean.js` |
| `VastErrors` | `error.js` |
| `VastLoad` | `vast/base.js` |
| `BuilderRules`, `Builder`, `BuilderRoundTrip`, `JsonRoundTrip` | the builder |
| `Cache` | `cache.js` |
| `Tags` | `tag.js` |
| `Campaigns` | `campaign.js` |
| `Media` | `media.js` |
| `Macro` | `macro.js` |
| `Tracker` | `tracker.js` |
| `EventsList` | `events_list.js` |
| `Uri` | `uri.js` |
| `ExtendObject` | `extend_object.js` |
| `Hex` | the two hex codec copies |

## Model

| member | source | states |
|---|---|---|
| XmlParser.Source | src/vast/parser/parser.js:37 | A falsy document reads as the empty text and a string as itself. Any other value fails, because it has no `match`. |
| XmlParser.BlankDocument | src/vast/parser/parser.js:36-49 | A missing, falsy or blank document is refused with "XML has no body." before any tag is read. |
| XmlParser.ParsedIsElements | src/vast/parser/parser.js:36-49 | A successful parse is one element node or a list of them. The `__failed` sentinel never survives. |
| XmlParser.Validate | src/vast/parser/parser.js:59-68 | The tree is refused exactly when its JSON text contains the sentinel. An accepted tree is returned unchanged. |
| XmlParser.SentinelRefused | src/vast/parser/parser.js:59-68 | A sentinel anywhere in the tree, at any depth, makes the parse fail. |
| XmlPrep.RemoveDefinitionSpec | src/vast/parser/parser.js:77-86 | Only the leftmost `<?xml…?>` declaration is removed, at the place it was matched. The text before and after it is kept. |
| XmlPrep.InlineJoinsLines | src/vast/parser/parser.js:93-107 | After inlining, no line feed is left: every line was trimmed and the lines joined. |
| XmlPrep.CloseGapsNoGaps | src/vast/parser/parser.js:93-107 | After inlining, no `>` followed by white space and `<` is left. |
| XmlPrep.CloseGapsIdentity | src/vast/parser/parser.js:93-107 | Text without such a gap is left unchanged. |
| XmlPrep.BlankHasNoBody | src/vast/parser/parser.js:102-104 | Text of white space only is refused, because it has no body. |
| XmlPrep.EndTagsSelfClosing | src/vast/parser/parser.js:114-137 | One self-closing `<name attrs/>` becomes `<name attrs></name>`. |
| XmlPrep.EndTagsWhole | src/vast/parser/parser.js:114-137 | A lone self-closing tag is its own only match and gets its closing tag. |
| XmlPrep.EndTagsAll | src/vast/parser/parser.js:114-137 | Any number of self-closing tags, with text between them, each become `<name attrs></name>` in place; the text between them is kept as it was. |
| XmlPrep.RemoveCommentsOne | src/vast/parser/parser.js:144-155 | One comment is cut out where it stands, and the text around it is kept. |
| XmlPrep.RemoveCommentsAll | src/vast/parser/parser.js:144-155 | Any number of comments are all cut out, and the texts between them are kept and joined in order. |
| XmlParser.ElementName | src/vast/parser/parser.js:242-252 | The name read off an element's opening tag is the element's own name. |
| XmlParser.TagByName | src/vast/parser/parser.js:261-291 | The name lookup finds nothing exactly when no element of that name occurs in the chunk. |
| XmlParser.ElementFound | src/vast/parser/parser.js:261-291 | The lookup returns the whole element: its attribute text and its body. |
| XmlParser.AttributesOf | src/vast/parser/parser.js:312-317 | The attribute object has distinct keys, all lower-case. |
| XmlParser.AttributePiece | src/vast/parser/parser.js:312-317 | `key="value"` (or single-quoted) sets the lower-cased key to the value, unchanged. |
| XmlParser.NodeValue | src/vast/parser/parser.js:320-325 | A node's first value is text, or `false`. It is `false` exactly when the body starts with `<` and holds no CDATA. |
| XmlParser.CDataSection | src/vast/parser/parser.js:339-357 | A CDATA section yields exactly its inner text. |
| XmlParser.TextValue | src/vast/parser/parser.js:320-325 | A body without tags is its own value, trimmed. |
| XmlParser.Content | src/vast/parser/parser.js:192-203 | A text value is kept. A body that starts with `<` and holds no CDATA becomes a list of child nodes, never a lone node, even when there is one child. |
| XmlParser.ElementRead | src/vast/parser/parser.js:300-328 | An element with text and no children reads as one node holding its attributes and its trimmed text. |
| XmlParser.LoneItem | src/vast/parser/parser.js:179-232 | A chunk that is one element without children reads as that element alone. |
| XmlParser.ParseTag | src/vast/parser/parser.js:179-232 | Reading the prepared text gives one node, the sentinel, or the list of sibling nodes. |
| XmlParser.LeadingElement | src/vast/parser/parser.js:205-225 | An element with text that is followed by more of the chunk reads as its own node, then the nodes of the rest of the chunk. When the rest fails, the chunk fails the same way. |
| XmlParser.LeavesItems | src/vast/parser/parser.js:179-232 | Any number of elements with text, side by side, read as their nodes in document order. |
| XmlParser.LeavesRead | src/vast/parser/parser.js:179-232 | One such element reads as its node. Several read as the list of sibling nodes, in document order. |
| XmlParser.ChildrenContent | src/vast/parser/parser.js:191-203 | A body made of elements with text reads as the list of their nodes, a list even for one child. |
| XmlParser.ParentRead | src/vast/parser/parser.js:179-232 | A parent whose body is a run of elements with text reads as one node. Its value is the list of the children's nodes, in document order, a list even for one child, and it keeps the parent's attributes. |
| SchemaRules.Classify | src/vast/schema/rules.js:2-46 | Each child name gets exactly one fold rule, tested in the order the fold tests the sets. |
| SchemaRules.ManyAreKeyValue | src/vast/schema/rules.js:2-30 | `impression` and `error` are repeatable and also key/value names. |
| SchemaRules.SetsDisjoint | src/vast/schema/rules.js:2-46 | The collection, direct-extension, opaque-collection and key/value sets are pairwise disjoint. |
| Schemas.Construct | src/vast/schema/schema.js:12-22 | Building a Schema never throws a VAST error. A built Schema is an object of the requested class. |
| SchemaFacts.NotAnObjectRefused | src/vast/schema/schema.js:221-225 | Anything but an object or array is refused, naming the type the language reports. |
| SchemaFacts.NoTagNameRefused | src/vast/schema/schema.js:289-297 | A node without a non-empty first key is refused for having no tag name. |
| SchemaFacts.NoAttributesRefused | src/vast/schema/schema.js:309-317 | A node whose `attributes` is falsy is refused, naming the tag. |
| SchemaFacts.ExpectedName | src/vast/schema/schema.js:234-238 | A node named other than the class expects is refused. With the expected name, or no expectation, the built Schema is the defined one. |
| SchemaFacts.DefineTagName | src/vast/schema/schema.js:29-31 | `tagName()` of a defined Schema is the node's first key. |
| SchemaFacts.AttributesCopied | src/vast/schema/schema.js:309-317 | Attribute `k` becomes property `$k`, holding the attribute's value. |
| SchemaFacts.AddAttributesOther | src/vast/schema/schema.js:309-317 | A property that no attribute maps to is left unchanged. |
| SchemaFacts.CopyPublicGet | src/vast/schema/schema.js:249-264 | Extending copies every property of the child whose key does not start with `_`. |
| SchemaFacts.CopyPublicOther | src/vast/schema/schema.js:249-264 | Extending changes no other property. |
| SchemaFacts.StepKeyValue | src/vast/schema/schema.js:358-372 | A key/value or collection child sets `$name` to its value. When the field is already a list and the value is truthy, the value is appended instead. |
| SchemaFacts.StepMany | src/vast/schema/schema.js:350-372 | A repeatable child first makes its field a list if it is not one. A truthy value is then appended; a falsy value replaces the whole list. |
| SchemaFacts.StepExtendDirect | src/vast/schema/schema.js:375-381 | An `inline`, `wrapper` or `linear` child sets the parent's `$type` to its name, then its public properties are copied onto the parent. |
| SchemaFacts.StepExtendCollection | src/vast/schema/schema.js:384-390 | A `companionads` or `nonlinearads` child sets `$type` to its name and `$list` to its raw value. |
| SchemaFacts.StepChild | src/vast/schema/schema.js:392-397 | Any other child is kept after the children kept before it. No property changes. |
| SchemaFacts.FoldKeepsPrivate | src/vast/schema/schema.js:342-403 | The fold never changes a property whose key starts with `_`. |
| SchemaFacts.FoldChildren | src/vast/schema/schema.js:342-403 | `_tagValue` ends up holding exactly the children no rule consumed, in document order. |
| Schemas.Fold | src/vast/schema/schema.js:342-403 | The fold keeps the Schema's property keys distinct, whatever the children are. |
| SchemaQueries.WithNamesSpec | src/vast/schema/schema.js:76-99 | The filter fails exactly when some child is not a Schema. Otherwise it keeps exactly the named children, in order. |
| SchemaQueries.ValuesWithTagNameRefusals | src/vast/schema/schema.js:76-99 | The falsy-name refusal comes before anything else. A non-list value answers `false` for every other name. |
| SchemaQueries.ValueWithTagNameFirst | src/vast/schema/schema.js:107-114 | `valueWithTagName` yields the first child carrying the name. |
| SchemaQueries.HasTypeCaseInsensitive | src/vast/schema/schema.js:146-152 | `hasType` does not depend on the letter case of either side. |
| SchemaQueries.HasTypeOwn | src/vast/schema/schema.js:146-152 | A Schema whose `$type` is text has that type, in any case mix, and no other type. |
| SchemaClean.CleanKeys | src/vast/schema/schema.js:168-203 | `clean()` keeps exactly the properties whose key does not start with `_`. |
| SchemaClean.CleanCollection | src/vast/schema/schema.js:168-203 | A collection is cleaned into the list of its cleaned items, in order. |
| SchemaClean.CleanItemsAt | src/vast/schema/schema.js:168-203 | In a cleaned list, a Schema with a truthy `$list`, and anything that is not a Schema, stays as it was. Every other Schema is replaced by its clean form. |
| Collections.SortSpec | src/vast/collection/collection.js:153-163 | The sort is ascending by sequence key, a permutation, and stable for equal keys. |
| Collections.SortOfSorted | src/vast/collection/collection.js:153-163 | Sorting an already sorted list changes nothing. |
| Collections.SortConstantKey | src/vast/collection/collection.js:153-163 | When no two keys differ, insertion order is kept. |
| Collections.AddToSorted | src/vast/collection/collection.js:27-33 | `add` places the item after every item whose key is not greater, keeps the other items in their order, and adds exactly one item. |
| Collections.AddAllIsSort | src/vast/collection/collection.js:9-33 | Adding one item at a time, re-sorting after each, gives the stable sort of the whole list. |
| Collections.MapAllSpec | src/vast/collection/collection.js:9-20 | Construction succeeds exactly when the factory accepts every item. Each position then holds the factory's result for that item. |
| Collections.BuildSpec | src/vast/collection/collection.js:9-20 | A built collection holds exactly the made items, sorted stably by sequence. |
| Collections.BuildEmpty | src/vast/collection/collection.js:9-20 | A falsy argument builds an empty collection. |
| Collections.BuildKeepsOrder | src/vast/collection/collection.js:153-163 | Items that share one sequence key keep the order the factory made them in. |
| Collections.One | src/vast/collection/collection.js:91-109 | `one` gives `false` when no item is accepted, and otherwise an accepted item of the collection. |
| Collections.OneFirst | src/vast/collection/collection.js:91-109 | `one` picks the earliest accepted item. |
| Collections.ByIndex | src/vast/collection/collection.js:170-176 | An index out of range gives `false`. An in-range truthy item is returned. |
| Collections.First | src/vast/collection/collection.js:114-116 | `first()` is the item at index 0, or `false` for an empty collection. |
| Collections.ReplaceByIndex | src/vast/collection/collection.js:184-187 | The index takes the item, the list grows when the index is past the end, and every other position reads back as before. |
| Collections.ReplaceThenByIndex | src/vast/collection/collection.js:184-187 | Reading back the replaced position finds the item when it is truthy. `byIndex` of every other position is unchanged. |
| Collections.MatchingAt | src/vast/collection/collection.js:130-148 | Slot `k` of `withType` holds item `k`'s condition result exactly when the item's type matches case-insensitively and the result is truthy. |
| Collections.WithTypeIsArray | src/vast/collection/collection.js:130-148 | Asking for a type always yields an array, which is truthy even when nothing matched. |
| Collections.WithType | src/vast/collection/collection.js:130-148 | A falsy type gives the live item list. A type gives a sparse array no longer than the items. |
| Vast.New | src/vast/factory/vast.js:8-23 | A built Vast is an object of its class with distinct keys. The only VAST error construction throws is 102. |
| Vast.UnsupportedVersion | src/vast/factory/vast.js:11-13 | A version outside 1 to 4, or no number at all, is VAST error 102, raised before any ad is read. |
| Vast.VersionDigits | src/vast/factory/vast.js:30-32 | A version written in digits is accepted exactly when it is 1, 2, 3 or 4. |
| Vast.CheckedAds | src/vast/factory/vast.js:15-22 | With a supported version, the Vast is built exactly when the typed ad children make an `Ads` collection, which it then holds. |
| Vast.TypedMembers | src/vast/factory/vast.js:15-20 | The Vast keeps exactly the ad children that carry a type. |
| Vast.TypedAllTyped | src/vast/factory/vast.js:15-20 | When every ad child has a type, all are kept, in document order. |
| Vast.HasAds | src/vast/factory/vast.js:88-90 | `hasAds()` holds exactly when the ads collection is not empty. |
| Vast.SomeAd | src/vast/factory/vast.js:99-101 | `someAd` fails exactly when the ads cannot be listed. When an ad is accepted, the answer is an accepted ad. |
| Vast.HasSequenceSpec | src/vast/factory/vast.js:46-55 | `hasSequence` holds exactly when some ad has a truthy sequence. |
| Vast.HasFallbackSpec | src/vast/factory/vast.js:60-69 | `hasFallback` holds exactly when some ad asks for fallback on no ad. |
| Vast.HasLinearAsWrittenIsHasAds | src/vast/factory/vast.js:74-83 | As written, `hasLinear` answers whether there are any ads at all. |
| Vast.HasLinearCounterexample | src/vast/factory/vast.js:74-83 | An ad whose creatives hold no linear one makes the written `hasLinear` true and the intended one false. |
| Vast.HasLinearSpec | src/vast/factory/vast.js:74-83 | The intended `hasLinear` holds exactly when some ad has a linear creative. |
| Vast.LinearHasAds | src/vast/factory/vast.js:74-90 | A Vast with a linear creative has ads. |
| Ad.CollectionSorted | src/vast/factory/ads.js:4-12 | `Ads` holds exactly the ads made from the items, sorted stably by sequence. |
| Ad.NewFromSchema | src/vast/factory/ad.js:14-28 | A Schema named `ad` becomes an ad exactly when its creatives make a collection. |
| Ad.AdProps | src/vast/factory/ad.js:14-28 | A built ad has list-valued `impression` and `error` (empty when falsy), its creatives collection, and a redirect counter of 0. |
| Ad.FollowAdditionalWrappers | src/vast/factory/ad.js:51-53 | Wrappers are followed unless the attribute says otherwise. |
| Ad.AllowMultipleAds | src/vast/factory/ad.js:58-60 | Multiple ads are not allowed unless the attribute says so. |
| Ad.FallbackOnNoAd | src/vast/factory/ad.js:65-67 | There is no fallback unless the attribute says so. |
| Ad.AddRedirect | src/vast/factory/ad.js:210-214 | The redirect counter goes up by exactly one. |
| Ad.NewRedirected | src/vast/factory/ad.js:201-214 | A fresh ad redirected `k` times has a counter of `k`. |
| Ad.ReachedRedirectsLimitSpec | src/vast/factory/ad.js:223-225 | Against a limit written in digits, the limit is reached exactly when the counter is at least that number. |
| Ad.ReachedRedirectsLimitNaN | src/vast/factory/ad.js:223-225 | A limit that is not a number is never reached. |
| Ad.ExtendStages | src/vast/factory/ad.js:163-194 | `extendWithWrapper` is its three stages in turn: impression/error, linear tracking, kept attributes. |
| Ad.ExtendAppends | src/vast/factory/ad.js:165-169 | After extending, the ad's impression and error URIs come first and the wrapper's follow, in order. |
| Ad.ExtendNeedsLists | src/vast/factory/ad.js:165-169 | An ad whose impression or error is not a list cannot be extended. |
| Ad.ExtendItemsSpec | src/vast/factory/ad.js:172-183 | Every linear creative slot is extended and every other item kept. The merge fails exactly when a linear creative refuses. |
| Ad.ExtendCreativeSpec | src/vast/factory/ad.js:172-183 | A linear creative's tracking events become its own followed by every wrapper linear's, in wrapper order. |
| Ad.ExtendCreativeClicks | src/vast/factory/ad.js:172-183 | Its video clicks become its own followed by every wrapper linear's. Its other fields are unchanged. |
| Ad.AddWrapperLinearsSpec | src/vast/factory/ad.js:172-183 | When both sides have a linear creative, the ad's creatives become the merged items in the same collection. Otherwise nothing changes. |
| Ad.ExtendKeepsRedirects | src/vast/factory/ad.js:186-191 | The wrapper's redirect counter is taken over when defined. Otherwise the ad keeps its own. |
| Ad.ExtendKeepsFallback | src/vast/factory/ad.js:186-191 | Likewise for `$fallbackonnoad`. |
| Ad.ExtendCounted | src/vast/factory/ad.js:186-191 | A counted wrapper leaves a counted ad counted. |
| Ad.ExtendOthers | src/vast/factory/ad.js:163-194 | Every field other than the five it writes is left unchanged. |
| Creative.RawDuration | src/vast/factory/creative.js:83-91 | `duration(false)` is the raw value, or `'00:00:00'` when it is falsy. |
| Creative.DurationClock | src/vast/factory/creative.js:83-91 | A duration `hh:mm:ss` lasts 3600·h + 60·m + s seconds. |
| Creative.ZeroClock | src/vast/factory/creative.js:83-91 | A creative without a duration lasts 0 seconds. |
| Creative.NewNotLinear | src/vast/factory/creative.js:15-30 | A creative that is not linear is exactly its Schema: no parts are added. |
| Creative.NewIsLinear | src/vast/factory/creative.js:194-196 | A creative whose type is `linear`, in any case, takes the linear construction path. |
| Creative.LinearOk | src/vast/factory/creative.js:15-30 | A linear creative is built exactly when its media files, tracking events and video clicks are. |
| Creative.AssembleParts | src/vast/factory/creative.js:15-30 | The three parts sit under their names. Every other field is the Schema's. |
| Creative.LinearFields | src/vast/factory/creative.js:15-30 | A linear creative holds its media-file collection, and every other field is its Schema's. |
| Creative.LinearTrackingRead | src/vast/factory/creative.js:15-30 | The stored tracking events, read back, are the ones built from the children and the duration. |
| Creative.LinearClicks | src/vast/factory/creative.js:15-30 | The stored video clicks, read back, are the ones built from the children. |
| Creative.Collection | src/vast/factory/creatives.js:4-12 | `Creatives` is a collection of its class, and building it never throws a VAST error. |
| Creative.SkipOffset | src/vast/factory/creative.js:46-61 | `skipOffset()` is `false` exactly when the creative is not skippable. |
| Creative.SkipOffsetWithin | src/vast/factory/creative.js:46-52 | A percentage skip offset of 0 to 100 lands within the duration. |
| Creative.TrackingEventOf | src/vast/factory/creative.js:109-115 | `trackingEvent(name)` is the bucket of that name, whatever the case of `name`. |
| Creative.TrackingEventOfNew | src/vast/factory/creative.js:109-115 | In a built linear creative, it is the list of tracking children with that event name and no offset, in document order. |
| Creative.TrackingEventUnknown | src/vast/factory/creative.js:109-115 | A name that is neither a bucket nor `progress` yields `[]`. |
| Creative.TrackingEventProgressOf | src/vast/factory/creative.js:122-126 | `trackingEventProgress(s)` is second `s`'s progress list when the table has that second, and `[]` otherwise. |
| Creative.ProgressSeconds | src/vast/factory/creative.js:122-126 | With no offset events, every second from 1 to the duration has an empty list, and second 0 has none. |
| Creative.ClickThroughOfNew | src/vast/factory/creative.js:164-166 | `clickThrough()` is the last click-through URI, or `false` when there is none. |
| Creative.VideoClick | src/vast/factory/creative.js:151-157 | `videoClick(name)` fails exactly when the creative has no video clicks (`undefined` or `null`). |
| Creative.ApiFramework | src/vast/factory/creative.js:183-189 | The framework is truthy exactly when the attribute is. |
| Creative.SomeMediaFile | src/vast/factory/creative.js:218-220 | The answer is `false`, or a media file of the creative that the condition accepts. |
| MediaFile.NewSpec | src/vast/factory/mediafile.js:10-14 | A media file is built exactly when its Schema is and the tag is a Schema. It then holds the tag's text as `source()`. |
| MediaFile.CollectionKeepsOrder | src/vast/factory/mediafiles.js:4-12 | Media files have no sequence, so the collection keeps document order. |
| MediaFile.DeliveryExclusive | src/vast/factory/mediafile.js:46-57 | A delivery is never both progressive and streaming. |
| MediaFile.Bitrate | src/vast/factory/mediafile.js:64-70 | A falsy bitrate answers `false`. Otherwise the answer is `parseInt` of it. |
| MediaFile.BitrateDigits | src/vast/factory/mediafile.js:64-70 | A bitrate written in digits is that number. |
| MediaFile.Scalable | src/vast/factory/mediafile.js:95-97 | A file is scalable unless the attribute says otherwise. |
| MediaFile.MaintainAspectRatio | src/vast/factory/mediafile.js:104-106 | The aspect ratio is not kept unless the attribute says so. |
| MediaFile.ApiFramework | src/vast/factory/mediafile.js:114-120 | The framework is the attribute, or `false` when the attribute is falsy. |
| MediaFile.IsVPAIDFramework | src/vast/factory/mediafile.js:127-133 | A missing or falsy framework is not VPAID. |
| MediaFile.IsVPAIDAnyCase | src/vast/factory/mediafile.js:127-133 | `isVPAID` ignores the letter case of the framework name. |
| MediaFile.IsVPAIDOther | src/vast/factory/mediafile.js:127-133 | Any other framework name is not VPAID. |
| MediaFile.RequiresFlashSpec | src/vast/factory/mediafile.js:140-150 | A file needs Flash exactly when its type, in any case, is `video/x-flv` or `application/x-shockwave-flash`. |
| TrackingEvents.NewEmpty | src/vast/factory/trackingevents.js:5-42 | With no children, all twenty named buckets are empty and the progress table is seeded. |
| TrackingEvents.SeedKeys | src/vast/factory/trackingevents.js:65-73 | The seeded progress table has an empty list under exactly the keys 1 to n. |
| TrackingEvents.SeedNoZero | src/vast/factory/trackingevents.js:29-31 | Progress is seeded from second 1: there is never a key 0. |
| TrackingEvents.SeedIsPut | src/vast/factory/trackingevents.js:65-73 | Seeding one more second is the assignment `progress[n] = []`. |
| TrackingEvents.RouteOffset | src/vast/factory/trackingevents.js:75-87 | A child with a truthy offset goes to its second's progress list, whatever its event name, after what that second held. |
| TrackingEvents.RouteUnknown | src/vast/factory/trackingevents.js:89-103 | A child without offset whose event names no bucket is dropped. |
| TrackingEvents.RouteList | src/vast/factory/trackingevents.js:33-41 | One child reaches a bucket exactly when its lower-cased event name is that bucket's name. |
| TrackingEvents.RecordLists | src/vast/factory/trackingevents.js:33-41 | Each named bucket receives exactly the URIs routed to it, in document order. |
| TrackingEvents.NewLists | src/vast/factory/trackingevents.js:5-42 | A new set holds in each bucket the URIs routed there, and nothing else. |
| TrackingEvents.AddLists | src/vast/factory/trackingevents.js:44-63 | `add` concatenates bucket by bucket, putting the argument's entries after the receiver's. |
| TrackingEvents.AddProgress | src/vast/factory/trackingevents.js:44-63 | Progress keeps the receiver's seconds and only those. A second the receiver lacks is lost. |
| TrackingEvents.AddEmpty | src/vast/factory/trackingevents.js:44-63 | Adding an all-empty set changes nothing. |
| TrackingEvents.AddEachLists | src/vast/factory/trackingevents.js:44-63 | Adding several sets in turn appends their buckets in that order. |
| TrackingEvents.AddEachSeconds | src/vast/factory/trackingevents.js:44-63 | Adding never creates or removes a second of the progress table. |
| TrackingEvents.FromToValue | src/vast/factory/trackingevents.js:5-42 | Reading back the stored object gives the same buckets and progress table. |
| VideoClicks.PushBucket | src/vast/factory/videoclicks.js:9-16 | A click reaches bucket `key` exactly when its tag names that bucket. |
| VideoClicks.RecordBuckets | src/vast/factory/videoclicks.js:2-17 | Each bucket gets exactly the URIs of the children with its name. A bucket is created only for a name some child carries. |
| VideoClicks.RecordOk | src/vast/factory/videoclicks.js:2-17 | Recording succeeds exactly when every child is a Schema. |
| VideoClicks.NewBuckets | src/vast/factory/videoclicks.js:2-17 | A new set has the three standard buckets, each with the URIs of its children. |
| VideoClicks.AddFromOk | src/vast/factory/videoclicks.js:24-32 | `add` succeeds exactly when the receiver has every bucket of the argument. |
| VideoClicks.AddSpec | src/vast/factory/videoclicks.js:24-32 | On success, each bucket is the receiver's list followed by the argument's. |
| VideoClicks.AddEachOk | src/vast/factory/videoclicks.js:24-32 | Adding several sets in turn succeeds exactly when the receiver has every bucket any of them has. |
| VideoClicks.ClickThrough | src/vast/factory/videoclicks.js:41-48 | `clickThrough()` is `false` for an empty click-through bucket, and otherwise one of its URIs. |
| VideoClicks.ClickThroughLast | src/vast/factory/videoclicks.js:41-48 | `clickThrough()` is the most recent click-through URI. |
| Units.SecondsOf | src/vast/unit/seconds.js:16-28 | A number is returned unchanged. Only text is read further, and any other value fails. |
| Units.ClockValue | src/vast/unit/seconds.js:16-28 | `hh:mm:ss` (or `hh:mm:ss.fff`) is worth 3600·h + 60·m + s. The fraction is dropped by `parseInt`. |
| Units.SecondsArray | src/vast/unit/seconds.js:37-41 | `toArray()` is `[0 .. n-1]`, whose length is the number of seconds. |
| Units.Offset | src/vast/unit/offset.js:15-25 | A successful offset needs a readable duration. An offset without `%` is read as a clock text, whatever the duration. |
| Units.OffsetOfPercent | src/vast/unit/offset.js:15-25 | `"p%"` gives `round(p/100 · seconds(duration))`, halves rounded up. |
| Units.OffsetFromPercent | src/vast/unit/offset.js:15-25 | The same holds for a duration that is already a number of seconds. |
| Units.PercentWithinDuration | src/vast/unit/offset.js:15-25 | For 0 ≤ p ≤ 100, the offset lies between 0 and the duration. |
| Units.Boolean | src/vast/unit/boolean.js:10-16 | A falsy value with a default yields the default. Otherwise the flag is true exactly when the value loosely equals `'true'` or `true`. |
| Units.BooleanFalsyNoDefault | src/vast/unit/boolean.js:10-16 | A falsy value without a default is false. |
| Units.BooleanOfFalse | src/vast/unit/boolean.js:10-16 | `'false'` is false even when the default is true. |
| Units.BooleanOfOne | src/vast/unit/boolean.js:10-16 | Loose equality makes `'1'` true as well. |
| Units.BooleanOfWord | src/vast/unit/boolean.js:10-16 | Other non-numeric words are false, whatever the default. |
| VastErrors.Message | src/vast/error.js:1-11 | The message is defined exactly for 100, 101, 102, 201, 202, 302, 303, 403 and 405, the VAST 3.0 error codes. |
| VastErrors.MessagesDistinct | src/vast/error.js:1-11 | The two linearity codes share one message. Every other pair of codes has distinct messages. |
| VastErrors.Make | src/vast/error.js:13-21 | The error keeps its code and carries the table message for that code. |
| VastLoad.FromXml | src/vast/base.js:5-28 | Loading fails only with VAST error 100, 101 or 102. It gives 100 exactly when parsing fails. It succeeds exactly when both parsing and building do, giving the Vast built from the tree. |
| VastLoad.ParserMessageKept | src/vast/base.js:8-13 | A parser failure is error 100 carrying the parser's message. |
| VastLoad.BlankIs100 | src/vast/base.js:8-13 | A missing or blank document is error 100, "XML has no body.". |
| VastLoad.SchemaRefusalIs101 | src/vast/base.js:15-24 | A Schema refusal while building is error 101 carrying the Schema's message. |
| VastLoad.UnsupportedVersionIs102 | src/vast/base.js:15-24 | An unsupported version is error 102, passed on unchanged. |
| VastLoad.Code101Exactly | src/vast/base.js:15-24 | Error 101 is exactly a parsed document whose building failed with something other than a VAST error. |
| BuilderRules.Lookup | src/vast/builder/rules.js:9-38 | Exactly vast, ads, ad, creatives, creative, mediafiles and mediafile are registered. The three plural names are the collections. |
| BuilderRules.SingularRegistered | src/vast/builder/rules.js:9-38 | Each collection name without its last letter is a registered name that is not a collection, and its class is the element class. |
| BuilderRules.EntryClasses | src/vast/builder/rules.js:1-38 | Each entry builds the class of its own name. |
| BuilderRules.RegisteredNotInherited | src/vast/builder/rules.js:9-38 | No registered name is an inherited property of the registry object. |
| Builder.ToString | src/vast/builder/builder.js:15-22 | Anything but a Vast is refused. A Vast gives the JSON text of its clean form. |
| Builder.ToVast | src/vast/builder/builder.js:29-36 | Anything but a string is refused. A string is parsed and rebuilt as a Vast. |
| Builder.BuildUnregistered | src/vast/builder/builder.js:44-79 | A name not registered, once its first `$` is dropped, leaves the JSON unchanged. |
| Builder.DollarNames | src/vast/builder/builder.js:44-79 | Only the first `$` is dropped, so `$ads` and `ads` both name the collection. |
| Builder.BuildCollection | src/vast/builder/builder.js:54-68 | A collection needs a list, and holds each element rebuilt under the singular name, in order. |
| Builder.BuildItemsSpec | src/vast/builder/builder.js:54-68 | The list fails exactly when an element fails. Otherwise each element is rebuilt at its own position. |
| Builder.BuildObject | src/vast/builder/builder.js:70-76 | A registered name that is not a collection makes an object of its class, or of the prototype a `__proto__` member sets, from the JSON's fields. |
| Builder.BuildFieldsSpec | src/vast/builder/builder.js:70-76 | The tag receives every own field but a `__proto__` member, in order. An object-valued field is rebuilt under its key, and any other field is copied. |
| Builder.Prototype | src/vast/builder/builder.js:70 | `Object.assign` sets the prototype from a `__proto__` member that is an object or null, and ignores any other value. |
| Builder.CopiedSpec | src/vast/builder/builder.js:70 | The fields `Object.assign` copies are exactly the JSON's fields but `__proto__`. |
| Builder.CopiedAll | src/vast/builder/builder.js:70 | Without a `__proto__` member, every field is copied, in order. |
| Builder.CopiedGet | src/vast/builder/builder.js:70 | Any key but `__proto__` reads the same on the copied fields as on the JSON. |
| Builder.ProtoNotOwn | src/vast/builder/builder.js:70-76 | A rebuilt object never has `__proto__` as an own property. |
| Builder.ProtoMembers | src/vast/builder/builder.js:70-76 | `{"__proto__":{}}` and `{"__proto__":null}` rebuild as an empty object with a replaced prototype; `{"__proto__":1}` rebuilds as an empty Vast. |
| BuilderRoundTrip.ProtoText | src/vast/builder/builder.js:29-36 | The same three texts, read by `toVast`, give the same three results. |
| JsonRoundTrip.PairRoundTrip | src/vast/builder/builder.js:29-36 | `JSON.parse` reads the two `\u` escapes of a character beyond U+FFFF back as that character. |
| JsonRoundTrip.PairExample | src/vast/builder/builder.js:29-36 | `"\ud83d\ude00"` reads as U+1F600. |
| JsonRoundTrip.LoneHalfRefused | src/vast/builder/builder.js:29-36 | An escaped low surrogate half, or an escaped high half not followed by another `\u` escape, is refused. |
| JsonRoundTrip.ParseSerialize | src/vast/builder/builder.js:15-36 | `JSON.parse(JSON.stringify(v))` gives back the plain form of every object or array `v`. |
| BuilderRoundTrip.RoundTripIsRebuild | src/vast/builder/builder.js:15-36 | `toVast(toString(v))` rebuilds the plain form of the clean Vast. |
| BuilderRoundTrip.RebuildRefusesInherited | src/vast/builder/builder.js:44-52 | The rebuild throws a `TypeError` for an object kept under an inherited name such as `constructor`, so `toVast(toString(v))` is not defined for every Vast. |
| BuilderRoundTrip.RoundTripVersion | src/vast/builder/builder.js:15-36 | When `toVast` succeeds on the text, `$version` survives the round trip. |
| BuilderRoundTrip.RoundTripAds | src/vast/builder/builder.js:15-36 | When `toVast` succeeds on the text, the ads come back in number and order, each rebuilt from its own clean form. |
| BuilderRoundTrip.RoundTripAdField | src/vast/builder/builder.js:15-36 | When `toVast` succeeds on the text, each ad's impression and error lists, and its other text fields, come back as they were. |
| Cache.NoSupport | src/player/cache.js:15-55 | Without support, `write` and `read` return false and leave the store and the taken set unchanged. |
| Cache.Name | src/player/cache.js:103-105 | The key starts with `__a3m_tag:<campaign>:<tag>:`, and the read pattern finds it. |
| Cache.NameMatches | src/player/cache.js:103-115 | A key from `_name(c, t)` always matches `_pattern(c, t)`. |
| Cache.WriteStores | src/player/cache.js:29-44 | A write stores the Vast's text under the named key and records that key on the Vast. A Vast from the cache is refused. |
| Cache.ScanSpec | src/player/cache.js:61-79 | The read loop takes the first matching, untaken key whose text rebuilds a Vast. It removes each matching entry that fails to rebuild, and continues. |
| Cache.ReadSpec | src/player/cache.js:52-82 | A read returns a matching key that was not taken, and takes it. No matching, untaken key before it in the storage rebuilds a Vast. |
| Cache.TakenOnce | src/player/cache.js:122-143 | A taken key is never returned by a read again. |
| Cache.RestoreMarks | src/player/cache.js:69-70 | A Vast read from the cache has `_fromCache` true and `_cacheKey` set to its key. |
| Tags.New | src/player/campaign/tag.js:17-26 | A new tag has no Vast and no failure. |
| Tags.NewFields | src/player/campaign/tag.js:17-26 | Construction fails only on `undefined` or `null` info. Every info key `k` becomes field `$k`. |
| Tags.IsGuaranteedNumbers | src/player/campaign/tag.js:93-99 | With guarantees on, a tag is guaranteed exactly while `guaranteed_count || 0` is at most the limit. |
| Tags.NotGuaranteedWhenDisabled | src/player/campaign/tag.js:93-99 | With guarantees off, no tag is guaranteed. |
| Tags.CanBeLoadedSpec | src/player/campaign/tag.js:132-150 | An inactive tag never loads. An `all` tag always loads. Otherwise a tag loads exactly when the device being mobile matches the tag being for mobile. |
| Tags.UsedAllSpec | src/player/campaign/tag.js:170-184 | `finished()` holds exactly when every ad of the Vast is marked used. |
| Tags.FinishedSpec | src/player/campaign/tag.js:170-184 | With a Vast whose ads can be listed, `finished()` says whether every ad is used. |
| Tags.Fail | src/player/campaign/tag.js:201-211 | `vastError(code)` records a VAST error of that code and schedules a retry. |
| Tags.Request | src/player/campaign/tag.js:218-246 | `request()` clears the Vast and the failure, and counts exactly one more attempt. |
| Tags.Reset | src/player/campaign/tag.js:241-246 | `_reset()` clears the Vast and the failure and changes nothing else. |
| Tags.Schedule | src/player/campaign/tag.js:297-316 | A retry timer is set only when none is pending. Afterwards one is pending. |
| Tags.ScheduleOnce | src/player/campaign/tag.js:297-316 | Scheduling again changes nothing. |
| Tags.ValidateSpec | src/player/campaign/tag.js:253-286 | The tag keeps its Vast with only the inline ads. It fails with 303 exactly when none is inline. |
| Tags.Judge | src/player/campaign/tag.js:270-276 | As written: no ads is 303, and otherwise the tag passes, because the written `hasLinear` is always true. |
| Tags.JudgeIntended | src/player/campaign/tag.js:270-276 | As intended: no ads is 303, and ads without a linear creative is 201. |
| Tags.NoLinearNot201 | src/player/campaign/tag.js:274-276 | Inline ads without a linear creative pass as written, where the intended check fails the tag with 201. |
| Tags.CompleteWithoutVast | src/player/campaign/tag.js:223-232 | A request that settles without a Vast leaves no Vast and exactly one retry pending. |
| Campaigns.TagValuesOfObject | src/player/campaign/campaign.js:81-88 | An object of tags is read as the values of its properties, in property order. |
| Campaigns.MakeTagsSpec | src/player/campaign/campaign.js:90-100 | One tag is made per value, in order. Making fails on the first value the Tag constructor refuses. |
| Campaigns.SplitSpec | src/player/campaign/campaign.js:90-100 | Each tag lands in exactly one list, the guaranteed list exactly when it is guaranteed. Both lists keep input order. |
| Campaigns.SeparateTagsSpec | src/player/campaign/campaign.js:77-106 | The campaign's two lists are the guaranteed and the other tags made from `$tags`, in order. |
| Campaigns.HasGuarantees | src/player/campaign/campaign.js:64-66 | `hasGuarantees()` is truthy exactly when there is a guaranteed tag. |
| Campaigns.TagList | src/player/campaign/campaign.js:53-59 | `tags()` is the guaranteed list when it is non-empty, and the other list otherwise. |
| Campaigns.RequestEachSpec | src/player/campaign/campaign.js:143-149 | Exactly the loadable tags are requested, each once. The others are unchanged. |
| Campaigns.RequestTagsSpec | src/player/campaign/campaign.js:139-156 | `requestTags` requests exactly the loadable tags of the current list, in order, and answers with them. |
| Media.New | src/player/slot/media.js:22-35 | A new selector does not prefer the framework and has no preferred files. |
| Media.PriorityWithoutFlash | src/player/slot/media.js:27-30 | Without Flash, the priority list names no Flash type and keeps the other types in order. |
| Media.PreferFramework | src/player/slot/media.js:43-47 | `preferFramework()` sets the framework preference and changes nothing else. |
| Media.IndexIn | src/player/slot/media.js:174-178 | A type's priority is its position in the list, or the list's length when it is not in it. |
| Media.ByFrameworkSpec | src/player/slot/media.js:84-98 | Non-VPAID files are always kept, and VPAID files only with the framework preferred. When none survives, all are kept. |
| Media.ByDeviceSpec | src/player/slot/media.js:103-113 | With Flash every file passes. Without it, exactly the files that do not need Flash pass. |
| Media.ByPrioritySpec | src/player/slot/media.js:118-124 | Files are sorted stably by priority index, and no file is lost or added. |
| Media.ByFirstTypeSpec | src/player/slot/media.js:129-141 | The first file stays first. The files left are exactly those loosely of its type. |
| Media.SetMediaFilesSpec | src/player/slot/media.js:57-68 | Every file left was given, all share one type, none needs Flash on a device without it, and on mobile they ascend in width. |
| Media.Preferred | src/player/slot/media.js:73-79 | `preferred()` is the first file left, or `false` when none is left. |
| Macro.ExtraOverrides | src/player/macro.js:18-37 | An extra macro overrides the default of the same name. A name the extras lack keeps its default. |
| Macro.SameRandom | src/player/macro.js:15-36 | The timestamp and all four cache-buster names carry the same random number. |
| Macro.ApplyNone | src/player/macro.js:40-45 | Text holding no `[key]` for any macro key is returned unchanged. |
| Macro.ReplaceEveryOccurrence | src/player/macro.js:40-45 | Every `[key]`, in any letter case, is replaced by the value. |
| Macro.EarlierValueRewritten | src/player/macro.js:40-45 | Keys apply in order: a value inserted by an earlier key is rewritten by a later key, and not the other way round. |
| Tracker.EventName | src/player/tracker/tracker.js:198-221 | The first lower-case `video` is removed, the rest lower-cased, and an alias applied. |
| Tracker.EventNameRemovesVideo | src/player/tracker/tracker.js:199 | `videostart` becomes `start`. |
| Tracker.EventNameKeepsVideo | src/player/tracker/tracker.js:199 | `VideoStart` becomes `videostart`. |
| Tracker.EventNamePlain | src/player/tracker/tracker.js:198-221 | A name without an alias is the input without its first `video`, lower-cased. |
| Tracker.EventNameRenamed | src/player/tracker/tracker.js:201-218 | `clickthru`, `skipped`, `playing` and `paused` become `clickthrough`, `skip`, `resume` and `pause`. |
| Tracker.EventNameVolume | src/player/tracker/tracker.js:206-208 | `volumechange` becomes `mute` when the volume is truthy and `unmute` otherwise. |
| Tracker.InheritedNamesIgnored | src/player/tracker/tracker.js:211-218 | The names the alias table inherits give an object's key text, which names no event. |
| Tracker.VideoIgnored | src/player/tracker/tracker.js:124-136 | A name that is not in the table, and `timeupdate`, report nothing and leave the table unchanged. |
| Tracker.VideoReports | src/player/tracker/tracker.js:143-182 | Impression and error use the ad's lists, creative events their tracking bucket, and clicks `clicktracking`. The error code becomes the `errorcode`, `error_code` and `error` macros. |
| Tracker.FirstErrorWritesCode | src/player/tracker/tracker.js:152-163 | The first error writes its code into the shared table entry. |
| Tracker.ErrorAfterCode13Ignored | src/player/tracker/tracker.js:134-163 | After an error reported with code 13, later errors are taken for `timeupdate` and report nothing. |
| Tracker.Code13Ignored | src/player/tracker/tracker.js:134-136 | An entry holding code 13 reports nothing. |
| Tracker.AppMerge | src/player/tracker/tracker.js:48-72 | The info overrides the defaults. The extra is merged, and wins, only when `addExtra` is set. |
| Tracker.App | src/player/tracker/tracker.js:48-72 | A report is made exactly when there is a campaign, and it has distinct keys. |
| Tracker.TagReport | src/player/tracker/tracker.js:113-115 | A tag report is made exactly when there is a campaign. |
| Tracker.VisitOnce | src/player/tracker/tracker.js:77-85 | The visit is reported at most once per page. |
| EventsList.TableNames | src/player/tracker/events_list.js:1-68 | The table holds exactly the sixteen event names, each once. |
| EventsList.TableCodes | src/player/tracker/events_list.js:2-67 | `error`'s code is null. The other fifteen carry the codes 0 to 14, so no two share a code. |
| EventsList.TableSources | src/player/tracker/events_list.js:2-67 | Only `impression` and `error` come from the ad, and only `clickthrough` from the video clicks. `filled` and `loaded` have no source. |
| EventsList.CreativeNamesAreBuckets | src/player/tracker/events_list.js:12-63 | Every creative-sourced name except `timeupdate` names a tracking-event bucket. |
| Uri.PathFileNameSpec | src/utils/uri.js:10-18 | The file name is the last `/`-segment when it contains `.`, and `''` otherwise. |
| Uri.QueryToObject | src/utils/uri.js:27-40 | The first `?` is dropped, and each non-empty `&`-piece assigns its second `=`-part to its first. |
| Uri.QueryLastWins | src/utils/uri.js:32-37 | A later piece with the same key overwrites an earlier one. |
| Uri.ObjectToQuery | src/utils/uri.js:49-61 | The query joins `key=value` pieces with `&`, in key order, and is `''` for an empty object. |
| Uri.QueryRoundTrip | src/utils/uri.js:27-61 | For keys and values free of `&`, `=` and `?`, reading the written query gives back the object. |
| ExtendObject.ExtendErrors | src/utils/extend_object.js:14-34 | `undefined` and `null` sources throw. Booleans and numbers leave the target unchanged. |
| ExtendObject.ExtendWrites | src/utils/extend_object.js:14-34 | The copy is `Object.assign` of the listed writes, in source key order, onto the target. |
| ExtendObject.WritesMarked | src/utils/extend_object.js:19-31 | With marked keys, every write goes to a `$` key, nested ones included. |
| ExtendObject.ExtendKeepsUnmarked | src/utils/extend_object.js:19-31 | With marked keys, a target field whose name does not start with `$` is unchanged, however deep the flattening goes. |
| ExtendObject.MarkedCopy | src/utils/extend_object.js:19-31 | A flat source is copied key for key onto `$k`, and the target's unmarked fields stay. |
| ExtendObject.CampaignFlattened | src/player/campaign/campaign.js:16-17 | The direct `campaign` object is flattened into the campaign next to the other answer fields, all marked. |
| Hex.Encode | bin/lzma.js:6-35 | The array is normalised in place: negatives plus 256, `undefined` to 0. The text is the trimmed concatenation of each value's hex digits. |
| Hex.TypeGuardNeverFires | bin/lzma.js:12-14 | No value's `typeof` is `'array'`, so the guard never fires. |
| Hex.ConcatBytes | bin/lzma.js:18-34 | Values in 0..255 take exactly two lower-case digits each, in array order. |
| Hex.Decode | src/lzma/base.js:4-30 | Blank text gives `[]`. Text is refused exactly when it is not blank and holds two non-hex characters in a row. |
| Hex.SplitPairsJoin | src/lzma/base.js:18-19 | Splitting on digit pairs loses nothing: the pieces join back into the text. |
| Hex.DecodeHex | src/lzma/base.js:18-27 | Pure hex text is read pair by pair into values 0..255. A trailing odd digit is one more value, 0..15. |
| Hex.RoundTrip | bin/lzma.js:6-63 | Decoding the encoding gives back the normalised bytes, for every byte from -256 to 255 and every `undefined` entry (as 0). |

## Left out

- I/O and the host are left out: the network (`request_tag`, `ajax`, the tracking-pixel
  `Image`), the DOM and `window`, timers and promises, `console`, and the global service
  locator. The device's Flash and mobile answers, the clock, the random number,
  `localStorage`, the page-wide visit flag and the cache's taken set are parameters or
  explicit state.
- The player adapters, views, back-fill, scrolling and iframe helpers, `proportion.js`,
  `source.js`, `parse_uri` and `decode_uri` are left out. They are DOM, media-element or
  floating-point code. `Media`'s last step, `_decodeSource`, uses `decode_uri` and is not
  modelled.
- The LZMA compression and decompression, `fs` and `eval` around the hex codec are left
  out. So are the build configuration files.
- Floating point is left out. Numbers are integers.
  `Units.Offset` rounds the percentage exactly, halves up, where the source rounds a
  floating-point product.
- Creative.Duration: does not model fractional seconds. `hh:mm:ss.fff` counts the whole
  seconds only, as `parseInt` reads them, and a numeric duration is an integer.
- Units.OffsetFrom: does not model fractional seconds. A clock offset's fraction is dropped
  as in the source, but a duration with a fraction cannot be given.
- Creative.TrackingEventProgress: takes a whole second. The source floors a fractional
  time first, and that flooring is not modelled.
- JsonText.ParseNumber: reads integers only. A fraction or exponent is refused. The
  engine's own JSON never holds one, because numbers are integers here.
- JsonText.NextChar: refuses a `\u` escape of a lone surrogate half, which `JSON.parse`
  accepts. Strings here are sequences of Unicode scalar values, so a lone half has no
  value. The engine's own JSON never holds one: `JSON.stringify` writes characters beyond
  U+FFFF as they are, and escaped pairs are decoded.
- Builder.Prototype: records only that the prototype was replaced, by null or by an
  object. The properties the new prototype lends are not modelled, and an array prototype
  is not told apart from an object one.
- Schemas.Construct: requires one of the classes a Schema is built as. Every factory
  passes its own class, so a class from a replaced prototype is never the argument.
- Strs.Lower: maps ASCII letters only. The source's `toLowerCase` also maps other letters
  (for example Turkish dotted and dotless i) and may change a string's length.
- Strs.Upper: maps ASCII letters only, for the same reason.
- MediaFile.IsVPAIDFramework: uses `Strs.Upper`, so a framework name such as `vpaıd`
  (dotless i), which the source upper-cases to `VPAID`, is not VPAID here.
  `MediaFile.IsVPAIDOther` states the ASCII reading.
- SchemaQueries.HasType: compares with the ASCII `Strs.Lower`. The same limit applies to
  `Collections.WithType`, `Creative.TrackingEvent`, `Creative.VideoClick` and the parser's
  lower-cased names and keys.
- XmlPrep.Prepare: the self-closing rewrite uses `Strs.ReplaceFirst`, which inserts the
  replacement literally. The source's `String.prototype.replace` (parser.js line 130)
  would expand `$&`, `` $` ``, `$'` and `$n` in it. A tag whose text holds `$` followed by
  one of those characters is rewritten differently.
- Macro.Uri: macro keys are matched as literal text, case-insensitively, and values are
  inserted literally. The source builds a regular expression from each key (macro.js
  line 41), so a key with regex metacharacters, or a value holding `$&`-style patterns,
  behaves differently.
- Cache.Read: the key pattern is matched as literal text with a digit run. The source
  builds a regular expression from the campaign and tag ids (cache.js line 114), so ids
  with regex metacharacters behave differently.
- XmlPrep.EndTagsAll: covers text between the tags that holds no `/>` and no line break,
  and that ends in `>` when it holds a `<`. Each tag's name holds no space, `/`, `<`, `>` or
  line break and does not start with `!`. Its attributes hold no `<`, `>` or line break, and
  are empty or start with a space and do not end in `/`. An attribute ending in `/` leaves a `/>` inside the closed
  tag, where the next tag's second `replace` would rewrite it. Other inputs are run by the
  same `EndTags` function but have no lemma.
- XmlPrep.RemoveCommentsAll: covers comments without `>` or line breaks inside, and text
  between them that holds no `<!--` and does not end in `<`, `!` or `-`. Other inputs are
  run by the same `RemoveComments` function but have no lemma.
- BuilderRoundTrip.RoundTripVersion: holds when `toVast` succeeds on the text. Which Vasts
  rebuild without a `TypeError` is not characterised; `RebuildRefusesInherited` shows that
  some do not.
- BuilderRoundTrip.RoundTripAds: holds when `toVast` succeeds on the text, for the same
  reason.
- BuilderRoundTrip.RoundTripAdField: holds when `toVast` succeeds on the text, for the same
  reason.
- XmlParser.ParentRead: covers children that hold text, one level deep, whose names differ
  from the parent's. A child named like its parent makes the lookup take the anchored
  pattern instead; deeper nesting is read by the same `Items` function but has no lemma.
- XmlParser.TagByName: tag names are used literally in the element pattern. The source
  splices the name into a regular expression, so a name holding regex metacharacters
  behaves differently. General regex semantics are not modelled: each pattern the parser
  uses is an explicit scan.
- Collections.Sort: a sequence that is `NaN` sorts as 0. The source's comparator returns
  `NaN` there, which makes the sort order engine-defined.
- Media.SetMediaFiles: on mobile, a width that is `NaN` sorts as 0. The desktop branch of
  `_setBySizes` keeps the order, because its comparator ignores one side and its result
  depends on the engine. `Campaign.sortTags` is left out for the same reason (its
  comparator returns booleans).
- Collections.ReplaceByIndex: stores a copy. Holes left by growing the list read as
  `undefined`. A shared object reached through another reference is not updated.
- Object identity and aliasing are not modelled. Where the source mutates an object that
  other references share, the model returns a new value:
  - `clean()` marking `$list` arrays in place;
  - `extendWithWrapper` pushing into shared lists;
  - a `Media` sort rearranging the collection's own array;
  - the tag filter assigning `$items` on the Vast's ad collection.
- VastLoad.FromXml: the text of errors raised by the language itself (a `TypeError`'s
  message) is the `native` parameter. Schema and parser messages are modelled.
- Tracker.Video: the back-fill and campaign reports are left out. They are `app` calls
  with fixed info, which `Tracker.AppMerge` covers.
- Tags.Complete: the wrapper-chain follower `request_tag` is not part of this model. The
  Vast it settles with is a parameter.

## Findings

| source | as written | input that shows it | evidently intended | confidence | as-written member | corrected member |
|---|---|---|---|---|---|---|
| src/vast/factory/vast.js:74-83 | `hasLinear()` tests `ad.creatives().withType('linear')`. That is an array, and an array is truthy even when empty, so `hasLinear()` is true whenever there is any ad. `_validateRequestVast` (tag.js line 274) therefore never raises VAST error 201. | a Vast with one inline ad whose only creative is not linear | `hasLinear()` is true exactly when some ad has a linear creative, so a tag whose ads have none fails with 201 | high (not executed) | Vast.HasLinearCounterexample | Vast.HasLinearSpec |
