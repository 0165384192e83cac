# tg-cli in Dafny

tg-cli is a from-scratch MTProto 2.0 client in C. This project models its byte-level codecs, its
recursive parsers and its protocol state machines, and proves what they promise. `dafny verify
dfyconfig.toml` checks all of it.

Four components, each a group of modules:

- **TL codec and skippers.** `TlCodec` and `TlSerial` are the growable writer and the cursor reader.
  `TlGrammar` holds the layouts of about eighty TL types as data, in the read order of the code, and
  what it means to walk them. `TlTrees` proves that walking a layout and encoding a tree are inverse to
  each other and how far the cursor can go. `TlSkip` holds the skippers
  themselves, moving a reader in place, proved to accept exactly what the grammar accepts. `Wires` writes
  objects out as a sender does, without the layouts, and `WireParts`, `WireMedia` and `WireMessages` say
  for every constructor which bytes its skipper reads. `PhotoSizes` and `Medias` are the photo-size walk
  and the media report; `ServiceRows` and `Messages` the Message parsers of history and search; `Rows`
  says which row they make of which bytes.
- **Secure channel.** `Ige`, `Frames`, `Sessions`, `Transports`, `Rpc`, `Containers`, `ApiCalls`:
  block chaining, sealing, numbering, framing over any fragmentation, containers, and the call loop;
  `Replies` says what a call makes of the bytes a server sends.
- **Key agreement.** `Modular`, `Factor`, `Handshake`, `Srp`, and `HonestServer`, which completes the
  handshake from the other side.
- **Persistence and login.** `Stores` (the format and its map), `SessionFiles` (saving and loading over
  a file system that can stop at any operation), `Login`.

Conventions. Buffers have any length, so on an unaligned buffer the cursor may pass the end by up to
three bytes, and `r->len - r->pos` then wraps as `size_t` does; nothing is assumed away. Integers are
unbounded and every machine width is written out. A block cipher is any per-key bijection on 16-byte
blocks, a hash any function with the right output length, RSA, PBKDF2 and gzip any function. Clock,
random bytes, socket and disk behaviour, server replies and user input are inputs, some of them scripts
(`Outcomes`), so every statement holds for all of them.

How a skipper is verified: it carries a ghost `Trail`, the part of the grammar's layout that is still to
be read. Each idiom of the source (a guarded read, a string, a nested object, a vector, a field behind
a flag) is one method that takes the trail one step further or fails because the grammar refuses.

Formats are stated twice: by the functions the code is proved against, and by the bytes themselves, spelled
out with their constants, so that a reader can compare the second with the TL schema.

Where the code departs from its own comments, the model follows the code:

- A session file of a newer version is treated as empty by a save and overwritten, although a comment
  in `src/app/session_store.c` says it is never overwritten (`Stores.OtherVersionsUnreadable`,
  `SessionFiles.SaveOverOtherVersion`).
- `src/core/mtproto_crypto.c` takes 16 bytes from the middle of each hash, not the 8 its header comment
  names.
- The soft migration of `src/app/auth_flow.c` is meant to keep the key, but the full migration before it
  has already reset the session, so a login that takes it cannot succeed (`Login.LoginBounds`,
  `Login.SoftMigrationTaken`).

## Model

| member | source | states |
|---|---|---|
| `TlSerial.TlWriter.Reserve` | src/core/tl_serial.c:25-36 | growth keeps every byte written; capacity is 64 or less than twice what is needed |
| `TlSerial.TlWriter.Put` | src/core/tl_serial.c:38-42 | the contents grow by exactly the bytes put |
| `TlSerial.TlWriter.WriteBytes` | src/core/tl_serial.c:119-144 | length prefix, content and zero padding are appended |
| `TlSerial.TlWriter.WriteItems` | src/core/tl_serial.c:59-149 | any sequence of writer calls appends the encodings in order |
| `TlSerial.TlReader.ReadBytes` | src/core/tl_serial.c:250-289 | content and cursor of a TL string, or failure with the cursor at the end |
| `TlSerial.TlReader.ReadBack` | src/core/tl_serial.c:188-299 | reading the items a writer wrote, by their types, returns them and stops at their end |
| `TlCodec.StringRoundTrip` | src/core/tl_serial.c:119-144 | a byte string is read back as written if and only if it is shorter than 2^24; otherwise it comes back cut |
| `TlCodec.ItemsRoundTrip` | src/core/tl_serial.c:59-299 | for every list of ints, longs, int128, int256, bools, vector headers and strings, reading undoes writing |
| `TlCodec.ItemsAligned` | src/core/tl_serial.c:119-149 | whatever is written, the output length is a multiple of four |
| `TlCodec.StringBytes` | src/core/tl_serial.c:119-144 | the bytes of a string: length in one byte, or 0xFE and three bytes, least significant first; content; at most three zeros |
| `TlCodec.StringForms` | src/core/tl_serial.c:250-289 | which bytes are read as a string, with content and cursor, and which are refused |
| `TlCodec.ShortReads` | src/core/tl_serial.c:188-309 | a read that does not fit gives zeros and leaves the cursor at the end |
| `TlCodec.ItemBytes` | src/core/tl_serial.c:79-149 | the bytes of ints, longs, bools and vector headers, constants spelled out |
| `Bytes.LeastFirst` | src/core/tl_serial.c:79-94 | words and longs stand with the least significant byte first |
| `Bytes.BitDigit` | src/core/tl_skip.c:446-468 | flag k is the binary digit of weight 2^k |
| `TlCodec.StringStaysAligned` | src/core/tl_serial.c:250-289 | on an aligned buffer a string read keeps the cursor aligned and inside |
| `TlCodec.StringStaysInside` | src/core/tl_serial.c:250-289 | a string read at `p` of a buffer of `len` bytes never leaves it, whatever the bytes, if and only if `p` is at or past the end, `len - p` is a multiple of four, or there is room for the longest string |
| `TlCodec.StringCanOvershoot` | src/core/tl_serial.c:272-285 | one zero byte on which the cursor passes the end |
| `TlTrees.SkipCursor` | src/core/tl_skip.c:385-4017 | every skipper on any bytes: success consumes at least four bytes, goes on, stays in bounds, and stays aligned on an aligned buffer, whatever vector counts are claimed |
| `TlTrees.SkipUndoesEncoding` | src/core/tl_skip.c:1880-3240 | wherever the encoding of any object stands, its skipper stops exactly at its end if MessageMedia nest at most four deep, and refuses it otherwise |
| `TlTrees.SkipAcceptsExactlyEncodings` | src/core/tl_skip.c:1880-3240 | on aligned buffers a skipper succeeds up to `q` if and only if the bytes up to `q` encode an object of its type nested at most four deep |
| `TlSkip.SkipObject` | src/core/tl_skip.c:385-4017 | every skipper succeeds exactly when the grammar accepts, at the grammar's cursor, and restores the media counter; it terminates on remaining bytes. What the grammar accepts is spelled in bytes by the `Wire` rows |
| `TlSkip.SkipVector` | src/core/tl_skip.c:1951-1960 | the counted loop decides like the grammar's vector |
| `TlSkip.SkipString` | src/core/tl_skip.c:391-398 | success and cursor of a skipped string |
| `TlSkip.SkipRichText` | src/core/tl_skip.c:1882-1936 | accepts exactly RichText trees |
| `TlSkip.SkipPageCaption` | src/core/tl_skip.c:1939-1948 | accepts exactly page captions |
| `TlSkip.SkipPageListItem` | src/core/tl_skip.c:1963-1975 | accepts exactly page list items |
| `TlSkip.SkipPageListOrderedItem` | src/core/tl_skip.c:1977-1992 | accepts exactly ordered list items |
| `TlSkip.SkipPageTableCell` | src/core/tl_skip.c:1996-2017 | accepts exactly table cells |
| `TlSkip.SkipPageTableRow` | src/core/tl_skip.c:2020-2035 | accepts exactly table rows |
| `TlSkip.SkipPageRelatedArticle` | src/core/tl_skip.c:2041-2066 | accepts exactly related articles |
| `TlSkip.SkipPageBlock` | src/core/tl_skip.c:2069-2221 | accepts exactly PageBlock trees |
| `TlSkip.SkipExtendedMedia` | src/core/tl_skip.c:2673-2702 | accepts exactly extended media |
| `TlSkip.SkipStoryItem` | src/core/tl_skip.c:2950-3010 | accepts exactly story items, whose media may hold stories |
| `TlSkip.SkipMedia` | src/core/tl_skip.c:3027-3039 | a fifth open media is refused; the counter is restored on every exit |
| `TlSkip.SkipMediaBody` | src/core/tl_skip.c:3041-3240 | accepts exactly the supported MessageMedia (the call without a report; `Medias.SkipMediaEx` is the one with a report) |
| `TlSkip.SkipReplyHeader` | src/core/tl_skip.c:1291-1320 | accepts exactly reply headers |
| `TlSkip.SkipMessageAction` | src/core/tl_skip.c:3837-3942 | accepts exactly the known service actions |
| `TlSkip.SkipMessage` | src/core/tl_skip.c:3949-4017 | accepts exactly messages |
| `TlSkip.LongsEnd` | src/core/tl_skip.c:3872-3882 | one bounds check before the loop decides like checking every element |
| `Wires.FitReads` | src/core/tl_skip.c:385-4017 | fields that fit the layout of a constructor are read by its skipper |
| `Wires.ReadsAnywhere` | src/core/tl_skip.c:385-4017 | what the rows below mean: the object written out, with anything in front and behind, is skipped to its last byte |
| `WireParts.AnyBoolWire` | src/core/tl_skip.c:385-389 | any four bytes are taken for a Bool |
| `WireParts.PeerWire` | src/core/tl_skip.c:400-413 | peerUser, peerChat, peerChannel: spelled field by field, read to the last byte; any other constructor is refused |
| `WireParts.NotificationSoundWire` | src/core/tl_skip.c:415-434 | notificationSoundDefault, notificationSoundNone, notificationSoundRingtone, notificationSoundLocal: spelled field by field, read to the last byte; any other constructor is refused |
| `WireParts.PeerNotifySettingsWire` | src/core/tl_skip.c:446-468 | peerNotifySettings, peerNotifySettings2: spelled field by field, read to the last byte |
| `WireParts.PeerNotifySettingsRefused` | src/core/tl_skip.c:446-468 | any other constructor is refused |
| `WireParts.InputPeerWire` | src/core/tl_skip.c:475-502 | inputPeerEmpty to inputPeerChannelFromMessage (7 constructors): spelled field by field, read to the last byte; any other constructor is refused |
| `WireParts.InputGeoPointWire` | src/core/tl_skip.c:504-519 | inputGeoPointEmpty, inputGeoPoint: spelled field by field, read to the last byte; any other constructor is refused |
| `WireParts.InputPhotoWire` | src/core/tl_skip.c:521-536 | inputPhotoEmpty, inputPhoto: spelled field by field, read to the last byte; any other constructor is refused |
| `WireParts.InputDocumentWire` | src/core/tl_skip.c:538-553 | inputDocumentEmpty, inputDocument: spelled field by field, read to the last byte; any other constructor is refused |
| `WireParts.InputUserWire` | src/core/tl_skip.c:555-575 | inputUserEmpty, inputUserSelf, inputUser, inputUserFromMessage: spelled field by field, read to the last byte; any other constructor is refused |
| `WireParts.InputGameWire` | src/core/tl_skip.c:577-591 | inputGameID, inputGameShortName: spelled field by field, read to the last byte; any other constructor is refused |
| `WireParts.InputMediaWire1` | src/core/tl_skip.c:596-721 | inputMediaEmpty, inputMediaPhoto, inputMediaGeoPoint, inputMediaContact, inputMediaDocument: spelled field by field, read to the last byte |
| `WireParts.InputMediaWire2` | src/core/tl_skip.c:596-721 | inputMediaVenue, inputMediaGeoLive, inputMediaGame, inputMediaDice, inputMediaStory: spelled field by field, read to the last byte |
| `WireParts.InputMediaWire3` | src/core/tl_skip.c:596-721 | inputMediaWebPage, inputMediaPoll, inputMediaPaidMedia, inputMediaPhotoExternal, inputMediaDocumentExternal: spelled field by field, read to the last byte |
| `WireParts.InputMediaRefused` | src/core/tl_skip.c:596-721 | any other constructor is refused |
| `WireParts.InputReplyToWire` | src/core/tl_skip.c:727-751 | inputReplyToMessage, inputReplyToStory: spelled field by field, read to the last byte; any other constructor is refused |
| `WireParts.DraftMessageWire` | src/core/tl_skip.c:757-788 | draftMessageEmpty, draftMessage: spelled field by field, read to the last byte; any other constructor is refused |
| `WireParts.EntityWire` | src/core/tl_skip.c:790-848 | messageEntityUnknown to messageEntityBlockquote (20 constructors): spelled field by field, read to the last byte; any other constructor is refused |
| `WireParts.InlineQueryPeerTypeWire` | src/core/tl_skip.c:879-902 | inlineQueryPeerTypeSameBotPM, inlineQueryPeerTypePM, inlineQueryPeerTypeChat, inlineQueryPeerTypeMegagroup, inlineQueryPeerTypeBroadcast, inlineQueryPeerTypeBotPM: spelled field by field, read to the last byte; any other constructor is refused |
| `WireParts.KeyboardButtonWire1` | src/core/tl_skip.c:905-970 | keyboardButton to keyboardButtonSwitchInline (10 constructors): spelled field by field, read to the last byte |
| `WireParts.KeyboardButtonWire2` | src/core/tl_skip.c:905-970 | keyboardButtonUrlAuth, keyboardButtonRequestPoll, keyboardButtonUserProfile: spelled field by field, read to the last byte; any other constructor is refused |
| `WireParts.KeyboardButtonRowWire` | src/core/tl_skip.c:973-990 | keyboardButtonRow: spelled field by field, read to the last byte; any other constructor is refused |
| `WireParts.ReplyMarkupWire` | src/core/tl_skip.c:1004-1034 | replyKeyboardHide, replyKeyboardForceReply, replyKeyboardMarkup, replyInlineMarkup: spelled field by field, read to the last byte; any other constructor is refused |
| `WireParts.ReactionWire` | src/core/tl_skip.c:1039-1056 | reactionEmpty, reactionPaid, reactionEmoji, reactionCustomEmoji: spelled field by field, read to the last byte; any other constructor is refused |
| `WireParts.ReactionCountWire` | src/core/tl_skip.c:1059-1077 | reactionCount: spelled field by field, read to the last byte; any other constructor is refused |
| `WireParts.PeerReactionWire` | src/core/tl_skip.c:1081-1094 | messagePeerReaction: spelled field by field, read to the last byte; any other constructor is refused |
| `WireParts.ReactorWire` | src/core/tl_skip.c:1098-1114 | messageReactor: spelled field by field, read to the last byte; any other constructor is refused |
| `WireParts.ReactionsWire` | src/core/tl_skip.c:1116-1154 | messageReactions: spelled field by field, read to the last byte; any other constructor is refused |
| `WireParts.RepliesWire` | src/core/tl_skip.c:1163-1196 | messageReplies: spelled field by field, read to the last byte; any other constructor is refused |
| `WireParts.TextWithEntitiesWire` | src/core/tl_skip.c:2538-2547 | textWithEntities_poll: spelled field by field, read to the last byte; any other constructor is refused |
| `WireParts.FactCheckWire` | src/core/tl_skip.c:1207-1233 | factCheck: spelled field by field, read to the last byte; any other constructor is refused |
| `WireParts.FwdHeaderWire` | src/core/tl_skip.c:1250-1276 | messageFwdHeader: spelled field by field, read to the last byte |
| `WireParts.FwdHeaderRefused` | src/core/tl_skip.c:1250-1276 | any other constructor is refused |
| `WireParts.ReplyHeaderWire` | src/core/tl_skip.c:1291-1320 | messageReplyStoryHeader, messageReplyHeader: spelled field by field, read to the last byte; any other constructor is refused |
| `WireMedia.PhotoSizeWire` | src/core/tl_skip.c:1331-1368 | photoSizeEmpty, photoSize, photoCachedSize, photoStrippedSize, photoPathSize, photoSizeProgressive: spelled field by field, read to the last byte; any other constructor is refused |
| `WireMedia.PhotoWire` | src/core/tl_skip.c:1485-1537 | photoEmpty, photo: spelled field by field, read to the last byte; any other constructor is refused |
| `WireMedia.StickerSetWire` | src/core/tl_skip.c:1580-1607 | inputStickerSetEmpty to inputStickerSetDice (11 constructors): spelled field by field, read to the last byte; any other constructor is refused |
| `WireMedia.MaskCoordsWire` | src/core/tl_skip.c:1610-1621 | maskCoords: spelled field by field, read to the last byte; any other constructor is refused |
| `WireMedia.VideoSizeWire` | src/core/tl_skip.c:1624-1669 | videoSize, videoSizeEmojiMarkup, videoSizeStickerMarkup: spelled field by field, read to the last byte; any other constructor is refused |
| `WireMedia.DocumentAttributeWire1` | src/core/tl_skip.c:1684-1763 | documentAttributeImageSize, documentAttributeAnimated, documentAttributeHasStickers, documentAttributeFilename, documentAttributeVideo: spelled field by field, read to the last byte |
| `WireMedia.DocumentAttributeWire2` | src/core/tl_skip.c:1684-1763 | documentAttributeAudio, documentAttributeSticker, documentAttributeCustomEmoji: spelled field by field, read to the last byte; any other constructor is refused |
| `WireMedia.DocumentWire` | src/core/tl_skip.c:1767-1843 | documentEmpty, document: spelled field by field, read to the last byte; any other constructor is refused |
| `WireMedia.GeoPointWire` | src/core/tl_skip.c:1852-1868 | geoPointEmpty, geoPoint: spelled field by field, read to the last byte; any other constructor is refused |
| `WireMedia.RichTextWire` | src/core/tl_skip.c:1882-1936 | textEmpty to textImage (16 constructors): spelled field by field, read to the last byte; any other constructor is refused |
| `WireMedia.PageCaptionWire` | src/core/tl_skip.c:1939-1948 | pageCaption: spelled field by field, read to the last byte; any other constructor is refused |
| `WireMedia.PageListItemWire` | src/core/tl_skip.c:1963-1975 | pageListItemText, pageListItemBlocks: spelled field by field, read to the last byte; any other constructor is refused |
| `WireMedia.PageListOrderedItemWire` | src/core/tl_skip.c:1977-1992 | pageListOrderedItemText, pageListOrderedItemBlocks: spelled field by field, read to the last byte; any other constructor is refused |
| `WireMedia.PageTableCellWire` | src/core/tl_skip.c:1996-2017 | pageTableCell: spelled field by field, read to the last byte; any other constructor is refused |
| `WireMedia.PageTableRowWire` | src/core/tl_skip.c:2020-2035 | pageTableRow: spelled field by field, read to the last byte; any other constructor is refused |
| `WireMedia.PageRelatedArticleWire` | src/core/tl_skip.c:2041-2066 | pageRelatedArticle: spelled field by field, read to the last byte; any other constructor is refused |
| `WireMedia.PageBlockWire1` | src/core/tl_skip.c:2069-2221 | pageBlockUnsupported to pageBlockAuthorDate (12 constructors): spelled field by field, read to the last byte |
| `WireMedia.PageBlockWire2` | src/core/tl_skip.c:2069-2221 | pageBlockBlockquote, pageBlockPullquote, pageBlockPhoto, pageBlockVideo, pageBlockAudio, pageBlockCover: spelled field by field, read to the last byte |
| `WireMedia.PageBlockWire3` | src/core/tl_skip.c:2069-2221 | pageBlockChannel, pageBlockMap, pageBlockList, pageBlockOrderedList, pageBlockCollage, pageBlockSlideshow: spelled field by field, read to the last byte |
| `WireMedia.PageBlockWire4` | src/core/tl_skip.c:2069-2221 | pageBlockDetails, pageBlockRelatedArticles, pageBlockTable, pageBlockEmbed, pageBlockEmbedPost: spelled field by field, read to the last byte |
| `WireMedia.PageBlockRefused` | src/core/tl_skip.c:2069-2221 | any other constructor is refused |
| `WireMedia.PageWire` | src/core/tl_skip.c:2226-2270 | page: spelled field by field, read to the last byte; any other constructor is refused |
| `WireMedia.WallPaperSettingsWire` | src/core/tl_skip.c:2276-2293 | wallPaperSettings: spelled field by field, read to the last byte; any other constructor is refused |
| `WireMedia.WallPaperWire` | src/core/tl_skip.c:2299-2330 | wallPaper, wallPaperNoFile: spelled field by field, read to the last byte; any other constructor is refused |
| `WireMedia.BaseThemeWire` | src/core/tl_skip.c:2336-2377 | baseThemeClassic, baseThemeDay, baseThemeDark, baseThemeTinted, baseThemeArctic: spelled field by field, read to the last byte; any other constructor is refused |
| `WireMedia.ThemeSettingsWire` | src/core/tl_skip.c:2336-2377 | themeSettings: spelled field by field, read to the last byte; any other constructor is refused |
| `WireMedia.WebPageAttributeWire` | src/core/tl_skip.c:2382-2443 | webPageAttributeTheme, webPageAttributeStory, webPageAttributeStickerSet: spelled field by field, read to the last byte; any other constructor is refused |
| `WireMedia.WebPageWire1` | src/core/tl_skip.c:2446-2535 | webPageEmpty, webPagePending, webPageNotModified: spelled field by field, read to the last byte |
| `WireMedia.WebPageWire2` | src/core/tl_skip.c:2446-2535 | webPage: spelled field by field, read to the last byte |
| `WireMedia.WebPageRefused` | src/core/tl_skip.c:2446-2535 | any other constructor is refused |
| `WireMedia.PollWire` | src/core/tl_skip.c:2550-2586 | poll: spelled field by field, read to the last byte; any other constructor is refused |
| `WireMedia.PollAnswerWire` | src/core/tl_skip.c:2550-2586 | pollAnswer: spelled field by field, read to the last byte; any other constructor is refused |
| `WireMedia.PollAnswerVotersWire` | src/core/tl_skip.c:2589-2602 | pollAnswerVoters: spelled field by field, read to the last byte; any other constructor is refused |
| `WireMedia.PollResultsWire` | src/core/tl_skip.c:2605-2641 | pollResults: spelled field by field, read to the last byte; any other constructor is refused |
| `WireMedia.GameWire` | src/core/tl_skip.c:2647-2666 | game: spelled field by field, read to the last byte; any other constructor is refused |
| `WireMedia.ExtendedMediaWire` | src/core/tl_skip.c:2673-2702 | messageExtendedMediaPreview, messageExtendedMedia: spelled field by field, read to the last byte; any other constructor is refused |
| `WireMedia.WebDocumentWire` | src/core/tl_skip.c:2710-2738 | webDocument, webDocumentNoProxy: spelled field by field, read to the last byte; any other constructor is refused |
| `WireMedia.StoryFwdHeaderWire` | src/core/tl_skip.c:2744-2762 | storyFwdHeader: spelled field by field, read to the last byte; any other constructor is refused |
| `WireMedia.AreaCoordinatesWire` | src/core/tl_skip.c:2768-2784 | mediaAreaCoordinates: spelled field by field, read to the last byte; any other constructor is refused |
| `WireMedia.GeoPointAddressWire` | src/core/tl_skip.c:2790-2808 | geoPointAddress: spelled field by field, read to the last byte; any other constructor is refused |
| `WireMedia.MediaAreaWire1` | src/core/tl_skip.c:2811-2862 | mediaAreaVenue, mediaAreaGeoPoint, mediaAreaSuggestedReaction, mediaAreaChannelPost: spelled field by field, read to the last byte |
| `WireMedia.MediaAreaWire2` | src/core/tl_skip.c:2811-2862 | mediaAreaUrl, mediaAreaStarGift, mediaAreaWeather: spelled field by field, read to the last byte; any other constructor is refused |
| `WireMedia.PrivacyRuleWire` | src/core/tl_skip.c:2865-2895 | privacyValueAllowContacts to privacyValueDisallowChatParticipants (12 constructors): spelled field by field, read to the last byte; any other constructor is refused |
| `WireMedia.StoryViewsWire` | src/core/tl_skip.c:2902-2938 | storyViews: spelled field by field, read to the last byte; any other constructor is refused |
| `WireMedia.StoryItemWire` | src/core/tl_skip.c:2950-3010 | storyItemDeleted, storyItemSkipped, storyItem: spelled field by field, read to the last byte |
| `WireMedia.StoryItemRefused` | src/core/tl_skip.c:2950-3010 | any other constructor is refused |
| `WireMessages.MediaWire1` | src/core/tl_skip.c:3041-3240 | messageMediaEmpty, messageMediaUnsupported, messageMediaGeo, messageMediaContact, messageMediaVenue: spelled field by field, read to the last byte |
| `WireMessages.MediaWire2` | src/core/tl_skip.c:3041-3240 | messageMediaGeoLive, messageMediaDice, messageMediaPhoto, messageMediaWebPage: spelled field by field, read to the last byte |
| `WireMessages.MediaWire3` | src/core/tl_skip.c:3041-3240 | messageMediaPoll, messageMediaInvoice, messageMediaStory, messageMediaGiveaway: spelled field by field, read to the last byte |
| `WireMessages.MediaWire4` | src/core/tl_skip.c:3041-3240 | messageMediaGame, messageMediaPaidMedia, messageMediaDocument: spelled field by field, read to the last byte |
| `WireMessages.MediaRefused` | src/core/tl_skip.c:3041-3240 | any other constructor is refused |
| `WireMessages.ChatPhotoWire` | src/core/tl_skip.c:3284-3304 | chatPhotoEmpty, chatPhoto: spelled field by field, read to the last byte; any other constructor is refused |
| `WireMessages.UserProfilePhotoWire` | src/core/tl_skip.c:3312-3332 | userProfilePhotoEmpty, userProfilePhoto: spelled field by field, read to the last byte; any other constructor is refused |
| `WireMessages.UserStatusWire` | src/core/tl_skip.c:3335-3353 | userStatusEmpty, userStatusOnline, userStatusOffline, userStatusRecently, userStatusLastWeek, userStatusLastMonth: spelled field by field, read to the last byte; any other constructor is refused |
| `WireMessages.RestrictionReasonWire` | src/core/tl_skip.c:3358-3382 | restrictionReason: spelled field by field, read to the last byte; any other constructor is refused |
| `WireMessages.UsernameWire` | src/core/tl_skip.c:3387-3408 | username: spelled field by field, read to the last byte; any other constructor is refused |
| `WireMessages.PeerColorWire` | src/core/tl_skip.c:3413-3424 | peerColor: spelled field by field, read to the last byte; any other constructor is refused |
| `WireMessages.EmojiStatusWire` | src/core/tl_skip.c:3427-3445 | emojiStatusEmpty, emojiStatus, emojiStatusUntil: spelled field by field, read to the last byte; any other constructor is refused |
| `WireMessages.ChatAdminRightsWire` | src/core/tl_skip.c:3448-3457 | chatAdminRights: spelled field by field, read to the last byte; any other constructor is refused |
| `WireMessages.ChatBannedRightsWire` | src/core/tl_skip.c:3460-3470 | chatBannedRights: spelled field by field, read to the last byte; any other constructor is refused |
| `WireMessages.InputChannelWire` | src/core/tl_skip.c:3517-3532 | inputChannelEmpty, inputChannel, inputChannelFromMessage: spelled field by field, read to the last byte; any other constructor is refused |
| `WireMessages.ChatWire1` | src/core/tl_skip.c:3483-3668 | chatEmpty, chatForbidden, chat, channelForbidden: spelled field by field, read to the last byte |
| `WireMessages.ChatWire2` | src/core/tl_skip.c:3483-3668 | channel: spelled field by field, read to the last byte |
| `WireMessages.ChatRefused` | src/core/tl_skip.c:3483-3668 | any other constructor is refused |
| `WireMessages.UserWire1` | src/core/tl_skip.c:3685-3828 | userEmpty: spelled field by field, read to the last byte |
| `WireMessages.UserWire2` | src/core/tl_skip.c:3685-3828 | user, user2: spelled field by field, read to the last byte |
| `WireMessages.UserRefused` | src/core/tl_skip.c:3685-3828 | any other constructor is refused |
| `WireMessages.MessageActionWire1` | src/core/tl_skip.c:3837-3942 | messageActionEmpty to messageActionChannelMigrateFrom (16 constructors): spelled field by field, read to the last byte |
| `WireMessages.MessageActionWire2` | src/core/tl_skip.c:3837-3942 | messageActionChatEditPhoto, messageActionPhoneCall, messageActionGroupCall, messageActionGroupCallScheduled, messageActionInviteToGroupCall: spelled field by field, read to the last byte; any other constructor is refused |
| `WireMessages.MessageWire1` | src/core/tl_skip.c:3949-4017 | messageEmpty, messageService: spelled field by field, read to the last byte |
| `WireMessages.MessageWire2` | src/core/tl_skip.c:3949-4017 | message: spelled field by field, read to the last byte |
| `WireMessages.MessageRefused` | src/core/tl_skip.c:3949-4017 | any other constructor is refused |
| `Rows.TooManyUsers` | src/core/tl_skip.c:3872-3882 | actions that list more than 4096 users are refused |
| `PhotoSizes.WalkSizes` | src/core/tl_skip.c:1402-1483 | the walk accepts what the vector skipper accepts, stops where it stops, and names the first entry of the largest score that is not negative, cut to the buffer; without a buffer nothing |
| `PhotoSizes.WalkSize` | src/core/tl_skip.c:1412-1473 | one entry: same walk as the size skipper, with its name and width times height |
| `PhotoSizes.LeadsNext` | src/core/tl_skip.c:1475-1480 | keeping the best so far by a strict comparison keeps the first of the largest |
| `PhotoSizes.SizeScored` | src/core/tl_skip.c:1412-1473 | from the bytes of a size: at most seven bytes of its type, and width times height, -1 or 0 by constructor |
| `Medias.PhotoFull` | src/core/tl_skip.c:1485-1533 | accepts exactly what the photo skipper accepts and reports id, access hash, file reference, largest size and the word behind the size vectors as data centre |
| `Medias.DocumentInner` | src/core/tl_skip.c:1767-1839 | accepts exactly what the document skipper accepts and reports id, access hash, file reference, type, size, data centre and the file name kept from the attributes |
| `Medias.SkipMediaEx` | src/core/tl_skip.c:3027-3240 | accepts exactly what the media skipper accepts; the kind is reported on failure too, the rest of the report on success |
| `Medias.PhotoMediaReported` | src/core/tl_skip.h:138-165 | for every photo a sender can encode in a message, the report has its kind, id, access hash and data centre, the first 128 bytes of its file reference, and the type of the first of its largest sizes |
| `Medias.DocumentMediaReported` | src/core/tl_skip.h:138-165 | the same for every document, with its size, the last file name among its attributes, and 63 bytes of its type |
| `Medias.KindTold` | src/core/tl_skip.c:3041-3240 | the kind reported for each of the sixteen constructors |
| `Medias.PhotoBytes` | src/core/tl_skip.c:1485-1533 | the bytes of an encoded photo, field by field |
| `Medias.DocumentBytes` | src/core/tl_skip.c:1767-1839 | the bytes of an encoded document, field by field |
| `Medias.FileMediaBytes` | src/core/tl_skip.c:3095-3104 | the bytes of the media around them |
| `Medias.SizesRead` | src/core/tl_skip.c:1402-1483 | types and areas of the sizes of a photo are those that were encoded |
| `Medias.LastNameIsLast` | src/core/tl_skip.c:1767-1839 | of several file names the last is kept, up to a NUL and 127 bytes |
| `Medias.InspectPhoto` | src/core/tl_skip.c:3027-3240 | run on a buffer with an encoded photo anywhere in it, the call reports that photo |
| `Medias.InspectDocument` | src/core/tl_skip.c:3027-3240 | and on one with an encoded document, that document |
| `ServiceRows.ActionFollowsGrammar` | src/domain/read/history.c:155-326 | wherever the skipper accepts a service action, history reads exactly the same bytes of it |
| `ServiceRows.LandFollows` | src/domain/read/history.c:402-514 | reading field by field with the shared skippers decides as the grammar does |
| `ServiceRows.SkippersExist` | src/core/tl_skip.c:385-4017 | the behaviour assumed of the shared skippers can be met on every buffer |
| `ServiceRows.SkipObjectConforms` | src/core/tl_skip.c:385-4017 | what the skippers prove of an object is what is assumed of them here |
| `ServiceRows.CStringIsLongest` | src/domain/read/history.c:117-124 | a C string is the longest start of the bytes without a NUL |
| `Messages.ParseHistory` | src/domain/read/history.c:376-514 | return code, cursor, id, date, out, text, flags and media fields of history's parser, for every behaviour of the shared skippers; the `Rows` rows say what they are in terms of the bytes |
| `Messages.ParseSearch` | src/domain/read/search.c:55-120 | search's copy gives the same return code, cursor and fields on every buffer |
| `Messages.IdentityCaptured` | src/domain/read/history.c:392-400 | whatever fails later, the row has the message's id and direction, and it is marked complex if and only if it was not read to its end |
| `Messages.TextCaptured` | src/domain/read/history.c:431-438 | a readable text is in the row, cut at a NUL and at 511 bytes and marked when cut, whatever fails later |
| `Messages.PhotoCaptured` | src/domain/read/history.c:448-460 | a photo is in the row with its id and data centre, whatever fails later |
| `Rows.MessageRow` | src/domain/read/history.c:376-514 | from the bytes of a message, whatever its flags: the row has its id, direction, date, text cut at a NUL and 511 bytes, and the kind, id and data centre of its media |
| `Rows.PhotoRow` | src/domain/read/history.c:448-460 | a message with an encoded photo: the row has the photo's id and data centre |
| `Rows.DocumentRow` | src/domain/read/history.c:448-460 | the same with a document |
| `Rows.EmptyMessageRow` | src/domain/read/history.c:376-390 | an empty message has its id and nothing else; other constructors are refused |
| `Rows.ServiceMessageRow` | src/domain/read/history.c:332-370 | from the bytes of a service message: id, direction, date, and the text of its action or else the label of the pinned message |
| `Rows.ServiceIdentity` | src/domain/read/history.c:332-370 | whatever fails later, the row of a service message has its id and direction; one marked complex was not read to its end |
| `Rows.PinnedLabel` | src/domain/read/history.c:338-355 | the label is the id in the reply header when its flag 4 is set |
| `Rows.PlainTexts` | src/domain/read/history.c:155-326 | the texts of actions without fields, and of unknown ones |
| `Rows.TitleTexts` | src/domain/read/history.c:155-326 | the texts of actions with a title, cut at its first NUL |
| `Rows.IdTexts` | src/domain/read/history.c:155-326 | the texts of actions with an id |
| `Rows.MigratedText` | src/domain/read/history.c:155-326 | the text of the action with a title and an id |
| `Rows.ListTexts` | src/domain/read/history.c:155-326 | the texts of actions with users or a photo; the first user is named |
| `Rows.CallText` | src/domain/read/history.c:155-326 | length and outcome of a call, by its flags and reason |
| `Rows.ScheduledText` | src/domain/read/history.c:155-326 | the date of a scheduled video chat |
| `Messages.UserAgrees` | src/domain/read/history.c:408-514 | a message the grammar accepts is read to the same cursor |
| `Messages.ServiceAgrees` | src/domain/read/history.c:332-370 | a service message is read to the same cursor unless it has reactions, and then short of it |
| `Messages.ParsersAgree` | src/core/tl_skip.c:3949-4017 | where `tl_skip_message` accepts, history and search succeed, at the same cursor if and only if it is not a service message with flag 20 |
| `Messages.ReactionsLeftUnread` | src/domain/read/history.c:332-370 | such messages exist for every id, peer and date, anywhere in a buffer: the skipper accepts all of it, history and search stop before its end |
| `Ige.Encrypt` | src/core/ige_aes.c:25-57 | into another buffer the output is the IGE encryption of the input, over the input what masking with the overwritten block gives; a length that is no multiple of 16 writes nothing |
| `Ige.Decrypt` | src/core/ige_aes.c:59-90 | the same for decryption |
| `Ige.IgeIsBijection` | src/core/ige_aes.c:25-90 | for every key, IV and number of blocks both directions are inverse, given only a bijective block cipher |
| `Ige.BlockFormula` | src/core/ige_aes.c:25-57 | block i of the ciphertext is E(p[i] ^ c[i-1]) ^ p[i-1], with the IV for c[-1] and p[-1] |
| `Ige.XorBit` | src/core/ige_aes.c:25-57 | exclusive or, bit by bit |
| `Ige.InPlaceEncrypts` | src/core/ige_aes.c:25-57 | encrypting over the input is IGE if and only if IGE leaves every block but the last as it was, so always for one block |
| `Ige.InPlaceDecrypts` | src/core/ige_aes.c:59-90 | the same for decrypting over the input |
| `Ige.InPlaceNeedsOneBlock` | src/core/ige_aes.c:25-90 | in either direction, working over the input is IGE for every block cipher if and only if there is at most one block |
| `Frames.PaddingLength` | src/core/mtproto_crypto.c:128-139 | 12 to 27 bytes that fill the last block |
| `Frames.KeyBytes` | src/core/mtproto_crypto.c:44-126 | AES key, IV and message key byte by byte against the hashes they come from, for both directions, and the key id |
| `Frames.Seal` | src/core/mtproto_crypto.c:154-190 | the message key is that of the padded text and the ciphertext its encryption under the keys derived from it |
| `Frames.Open` | src/core/mtproto_crypto.c:206-230 | the plaintext when the message key matches, otherwise nothing |
| `Frames.OpensExactlySealed` | src/core/mtproto_crypto.c:44-230 | a ciphertext opens to `p` if and only if it is the sealing of `p` |
| `Frames.ReceivesExactlySealed` | src/infrastructure/mtproto_rpc.c:144-215 | a packet is accepted with some content if and only if it is the frame of a padded plaintext for this session whose length field and bytes say that content |
| `Frames.SealedFrameRoundTrip` | src/infrastructure/mtproto_rpc.c:91-215 | for all data, salt, ids, key, direction and padding, opening a sealed frame gives the data; the frame is four-aligned |
| `Frames.HeaderBytes` | src/infrastructure/mtproto_rpc.c:91-142 | salt, session, message id, number, length and data in this order |
| `Sessions.Session.constructor` | src/core/mtproto_session.c:26-34 | a fresh session has a non-zero id and no key |
| `Sessions.Session.RenewId` | src/core/mtproto_session.c:36-42 | new non-zero id, counters reset, key and salt kept |
| `Sessions.Session.NextMsgId` | src/core/mtproto_session.c:53-74 | the new last id, in 64 bits; its high word is the clock unless the clock has not moved past the last id, and then it is four more |
| `Sessions.Session.NextSeqNo` | src/core/mtproto_session.c:85-90 | the number and the new counter, in 32 bits |
| `Sessions.NumberAll` | src/infrastructure/mtproto_rpc.c:36-107 | the ids and numbers of a whole run of messages |
| `Sessions.NextIdIncreases` | src/core/mtproto_session.c:53-74 | an id is newer than the last if and only if 64 bits are not used up |
| `Sessions.IdIsTime` | src/core/mtproto_session.c:53-74 | while the clock is ahead of the last id and below 2^32, the high word of an id is the clock and the low word the random one without its two low bits |
| `Sessions.IdsIncrease` | src/core/mtproto_session.c:53-74 | over any run, for any clock, the ids are strictly increasing if and only if none before the last is the final one |
| `Sessions.FreshIdsIncrease` | src/core/mtproto_session.c:53-74 | which holds for 2^30 messages while the clock is below 2^32 - 1 |
| `Sessions.NumbersCountContent` | src/core/mtproto_session.c:85-90 | the k-th content message gets 2k + 1, others twice the content count so far |
| `Transports.Transport.Send` | src/infrastructure/transport.c:61-117 | success appends exactly one frame, failure a part of it, a refused length nothing; a willing socket never fails |
| `Transports.Transport.Recv` | src/infrastructure/transport.c:119-189 | success takes exactly the frame at the front of the stream; a willing socket delivers every whole frame |
| `Transports.FrameRoundTrip` | src/infrastructure/transport.c:61-189 | a frame is read back, with the stream on the next frame, if and only if its payload is below 2^26 bytes |
| `Transports.FrameBytes` | src/infrastructure/transport.c:61-117 | the bytes of a frame: words in one byte, or 0x7F and three bytes; then the data |
| `Transports.StreamReadsBack` | src/infrastructure/transport.c:61-189 | any sequence of frames is read back in order |
| `Transports.Exchange` | src/infrastructure/transport.c:61-189 | sends, receives and delivery in any order and any fragmentation: what has been received is always the start of what was sent and the rest is on the wire, whole and in order; with willing sockets the run gets through if and only if every receive comes after its frame has arrived |
| `Rpc.SendClear` | src/infrastructure/mtproto_rpc.c:36-53 | numbering and framing of a message in the clear |
| `Rpc.RecvClear` | src/infrastructure/mtproto_rpc.c:55-87 | the content of the packet at the front of the stream |
| `Rpc.ClearRoundTrip` | src/infrastructure/mtproto_rpc.c:36-87 | a message in the clear is read back |
| `Rpc.ClearBytes` | src/infrastructure/mtproto_rpc.c:36-53 | eight zeros, message id, length, data |
| `Rpc.SendSealed` | src/infrastructure/mtproto_rpc.c:91-142 | no key, no effect; otherwise the message is numbered and goes out as the frame of its sealed header and data |
| `Rpc.RecvSealed` | src/infrastructure/mtproto_rpc.c:144-215 | succeeds exactly on packets that open for this session |
| `Rpc.ChannelRoundTrip` | src/infrastructure/mtproto_rpc.c:91-215 | what is sent, followed by anything, is cut off whole and opens to the data |
| `Containers.ParseContainer` | src/infrastructure/mtproto_rpc.c:264-317 | the messages of a container, at most `maxMsgs`, or the whole buffer as one |
| `Containers.ContainerBodiesAreSlices` | src/infrastructure/mtproto_rpc.c:287-316 | on any bytes the bodies of a container are in bounds, in order, disjoint and four-aligned in length |
| `Containers.ContainerRoundTrip` | src/infrastructure/mtproto_rpc.c:264-317 | parsing a container of any entries gives back the same entries |
| `Containers.ContainerBytes` | src/infrastructure/mtproto_rpc.c:264-317 | the bytes of a container and of its entries |
| `Containers.OtherBuffers` | src/infrastructure/mtproto_rpc.c:264-285 | anything else is one message; a count above the caller's limit is refused |
| `ApiCalls.Caller.ClassifyFrame` | src/infrastructure/api_call.c:85-152 | the kind of a frame, which the `Replies` rows give by its bytes; the session takes over the last salt the frame issues |
| `ApiCalls.BodiesShrink` | src/infrastructure/api_call.c:133-149 | container bodies are shorter than the container, so the recursion ends |
| `ApiCalls.ContainerKind` | src/infrastructure/api_call.c:133-149 | a container is refused or asks for a retry exactly when a message in it does, as the first such message says; otherwise it answers exactly when one of its messages does |
| `ApiCalls.BadSaltIsNoticed` | src/infrastructure/api_call.c:91-101 | the salt after a retry request is the one a bad_server_salt notice in the frame carries |
| `ApiCalls.Caller.Drain` | src/infrastructure/api_call.c:193-211 | at most 64 frames; all but the last are service frames; the salt is the last one issued |
| `ApiCalls.FindPayload` | src/infrastructure/api_call.c:213-247 | the first rpc_result of a container, without its header |
| `ApiCalls.Caller.CallOnce` | src/infrastructure/api_call.c:159-255 | the query is sent, with the salt in force, exactly when the send succeeds; an answer is the unpacked payload of the first result frame |
| `ApiCalls.Caller.Call` | src/infrastructure/api_call.c:257-279 | one send, and a second exactly when the frames after the first end in a retry request and the second send succeeds, with the salt of the bad_server_salt notice; from which frame a call answers, and why it fails otherwise |
| `Replies.ResultAnswers` | src/infrastructure/api_call.c:151 | an rpc_result with any id and body is an answer, and the body is handed on |
| `Replies.BadSaltRetries` | src/infrastructure/api_call.c:91-101 | a bad_server_salt asks for a retry with the salt behind id, number and code; cut short it is an error |
| `Replies.NewSessionSalts` | src/infrastructure/api_call.c:113-126 | a new_session_created is skipped and its salt taken over; cut short it issues none |
| `Replies.OtherFrames` | src/infrastructure/api_call.c:85-152 | acks and pongs are skipped, bad_msg_notification and less than a word are errors, any other constructor is an answer as it stands |
| `Replies.LargeContainer` | src/infrastructure/api_call.c:133-149 | a container of more than sixteen messages is an error |
| `Replies.ContainerAnswers` | src/infrastructure/api_call.c:213-247 | a container hands on the body of its first rpc_result |
| `Replies.Unpacked` | src/infrastructure/mtproto_rpc.c:219-260 | a gzip_packed body is inflated, any other handed on if it fits |
| `Replies.DrainTakes` | src/infrastructure/api_call.c:193-211 | after fewer than 64 service frames a drain takes exactly those and the frame behind them |
| `Replies.Ask` | src/infrastructure/api_call.c:257-279 | a call whose reply comes after fewer than 64 service frames sends the query once and returns the body of that rpc_result |
| `Replies.AskAgain` | src/infrastructure/api_call.c:257-279 | a call told of a new salt sends the query again with that salt and returns the body of the second reply |
| `Factor.Gcd` | src/infrastructure/mtproto_auth.c:176-185 | Euclid's loop yields the greatest common divisor |
| `Factor.Step` | src/infrastructure/mtproto_auth.c:171-173 | the iteration step, with no overflow of 128 bits |
| `Factor.Rho` | src/infrastructure/mtproto_auth.c:167-186 | x is f^k(2) and y is f^2k(2); the result is the first common divisor with pq |
| `Factor.PqFactorize` | src/infrastructure/mtproto_auth.c:151-206 | succeeds exactly when pq is even or the first split found along the orbits fits twice 32 bits; for odd pq success means 1 < p <= q and p * q = pq |
| `Factor.Orbit` | src/infrastructure/mtproto_auth.c:167-173 | the orbit starts at 2 and goes from x to x * x + c modulo pq |
| `Factor.FirstSplitDecides` | src/infrastructure/mtproto_auth.c:164-206 | for odd pq the first of nineteen attempts whose orbit, within a million steps, first meets a proper divisor decides: that divisor and the cofactor in order if both fit 32 bits, otherwise failure |
| `Factor.NoSplitNoFactors` | src/infrastructure/mtproto_auth.c:164-206 | without such an attempt odd pq is not factored |
| `Factor.OddFactors` | src/infrastructure/mtproto_auth.c:188-206 | factors of odd numbers are proper, in order, and multiply to pq |
| `Factor.SemiprimeFactors` | src/infrastructure/mtproto_auth.c:151-206 | for a product of two primes the outputs are those primes in order |
| `Factor.EvenShortcut` | src/infrastructure/mtproto_auth.c:155-162 | the even branch is right if and only if pq / 2 is at least 2 and below 2^32 |
| `Factor.EvenShortcutFails` | src/infrastructure/mtproto_auth.c:155-162 | even inputs on which it is wrong |
| `Modular.ToShortBig` | src/infrastructure/mtproto_auth.c:49-75 | the big-endian form without leading zeros, which has the value of the number |
| `Modular.Big64` | src/infrastructure/mtproto_auth.c:78-84 | the low 64 bits of a big-endian number |
| `Modular.MostFirst` | src/infrastructure/mtproto_auth.c:49-84 | the first byte of a big number is the most significant |
| `Handshake.AuthCtx.ReqPq` | src/infrastructure/mtproto_auth.c:210-302 | succeeds exactly when the reply carries our nonce and lists our key |
| `Handshake.AuthCtx.ReqDh` | src/infrastructure/mtproto_auth.c:306-385 | the request goes out exactly when pq can be factored and the encryption and the send succeed; its bytes, with factors of pq and the new nonce under the server's key, as `HonestServer.FactorsSent` reads them |
| `Handshake.AuthCtx.ParseDh` | src/infrastructure/mtproto_auth.c:389-500 | succeeds exactly when both nonces match outside and inside and 2 <= g <= 7 |
| `Handshake.AuthCtx.SetClientDh` | src/infrastructure/mtproto_auth.c:504-689 | key and salt are set exactly when the reply confirms the key, otherwise the session is unchanged |
| `Handshake.KeyGen` | src/infrastructure/mtproto_auth.c:693-711 | against any peer, which answers the messages sent so far as it likes: success exactly when the sends do and the run passes every check; then key, first salt and the three messages sent are those of the run; failure leaves the session unchanged |
| `Handshake.AgreedMeansChecked` | src/infrastructure/mtproto_auth.c:210-689 | a run that succeeds has seen both nonces in the first two replies and inside the decrypted answer, our fingerprint listed, an allowed generator and the hash that confirms the key |
| `Handshake.MessageBytes` | src/infrastructure/mtproto_auth.c:93-535 | both requests, the data encrypted to the server and the client's inner data, byte by byte |
| `Handshake.LastMessageBytes` | src/infrastructure/mtproto_auth.c:537-577 | the hashed and padded data and the message that carries it encrypted |
| `Handshake.DerivedBytes` | src/infrastructure/mtproto_auth.c:115-689 | temporary key and IV, confirming hash and first salt byte by byte against the hashes and nonces they come from |
| `HonestServer.HonestRun` | src/infrastructure/mtproto_auth.c:210-711 | against an honest responder, which knows of the client only its messages and checks everything in them, a run succeeds if and only if the first reply fits 4096 bytes and pq is factored rightly, and the client's key is the one the responder computes from those messages |
| `HonestServer.Meet` | src/infrastructure/mtproto_auth.c:693-711 | `mtproto_auth_key_gen` against that responder: exactly then both sides hold the same key and the same first salt |
| `HonestServer.NewNonceArrives` | src/infrastructure/mtproto_auth.c:306-385 | the responder decrypts from the request the new nonce the client drew; it checks nonces, fingerprint, leading zero, SHA-1, pq and both factors, outside and inside |
| `HonestServer.FactorsSent` | src/infrastructure/mtproto_auth.c:362-377 | the first two strings behind the nonces of the request are the factors, the smaller first |
| `HonestServer.ReplyBytes` | src/infrastructure/mtproto_auth.c:228-631 | the three replies the client reads, byte by byte |
| `HonestServer.KeysAgree` | src/infrastructure/mtproto_auth.c:633-651 | g_a^b and g_b^a are the same 256 bytes |
| `HonestServer.PowerArrives` | src/infrastructure/mtproto_auth.c:528-578 | the responder reads from the client's message the power the client sent; it checks nonces, retry id and SHA-1 |
| `Srp.Compute` | src/infrastructure/auth_2fa.c:213-334 | succeeds exactly on a non-zero modulus and a derivable password key, and proves the secret with the whole exponent a + u * x |
| `Srp.PackGValue` | src/infrastructure/auth_2fa.c:200-207 | the packed generator has the value of the generator |
| `Srp.PasswordKeyIs` | src/infrastructure/auth_2fa.c:178-198 | the password key: salted hashes around PBKDF2, salts in their places |
| `Srp.ProofIs` | src/infrastructure/auth_2fa.c:304-334 | the proof is the hash of 640 bytes: H(p) xor H(g), H(salt1), H(salt2), A, B, H(secret) |
| `Srp.NumbersAre` | src/infrastructure/auth_2fa.c:244-255 | multiplier and scrambling exponent as hashes of modulus and generator, and of both public values |
| `Srp.SplitIsSecret` | src/infrastructure/auth_2fa.c:281-302 | base^a * (base^x)^u and base^(a + u * x) are the same residue |
| `Srp.SecretsAgree` | src/infrastructure/auth_2fa.c:213-334 | with B = k * g^x + g^b both sides compute the same secret |
| `Srp.ProofsAgree` | src/infrastructure/auth_2fa.c:304-334 | and the same proof message |
| `Stores.ReadStore` | src/app/session_store.c:212-298 | the store in a file, v1 lifted, anything else refused |
| `Stores.Serialise` | src/app/session_store.c:312-327 | the bytes of a store |
| `Stores.ParsedSerialised` | src/app/session_store.c:212-327 | reading undoes writing |
| `Stores.FileBytes` | src/app/session_store.c:312-327 | header and entries of a written file at their offsets |
| `Stores.VersionOne` | src/app/session_store.c:232-257 | a version 1 file written out as bytes loads as its one session, which is the home |
| `Stores.VersionOneCut` | src/app/session_store.c:237-240 | cut short it is refused |
| `Stores.FindEntry` | src/app/session_store.c:374-379 | the first entry of a data centre |
| `SessionFiles.Disk.WriteAtomic` | src/app/session_store.c:307-367 | succeeds exactly when the temporary file opens, takes every byte and is renamed; the file is then the new store, otherwise as it was; at every stop, torn writes included, it is one of the two |
| `SessionFiles.Upsert` | src/app/session_store.c:401-446 | when a save succeeds and what the file then is; wherever the process stops, the file is the old one, the old one created empty by the lock, or the new one |
| `SessionFiles.LoadDc` | src/app/session_store.c:490-512 | exactly the session saved for a data centre, otherwise the session is untouched; the file is created when it can be opened and is absent, and not otherwise |
| `SessionFiles.LoadHome` | src/app/session_store.c:460-488 | the same for the session of the home data centre |
| `Stores.PutRefines` | src/app/session_store.c:420-434 | a save is an update of a map with at most five keys; ids stay unique; a sixth data centre is refused |
| `SessionFiles.SaveAll` | src/app/session_store.c:401-446 | after any run of saves, each with its own disk faults, the file stands for the map after those that succeed |
| `Stores.StartsUnique` | src/app/session_store.c:232-257 | an absent, unreadable or v1 file has no duplicate ids |
| `SessionFiles.SaveThenLoadHome` | src/app/session_store.c:452-488 | when a save with home succeeds, from any file; the load of the home that follows returns that session if and only if the lock is free and the data centre is not 0 |
| `SessionFiles.LastSaveWins` | src/app/session_store.c:401-446 | the last save of a data centre that succeeded is the one kept |
| `SessionFiles.OthersKept` | src/app/session_store.c:401-446 | data centres that were not saved to keep theirs |
| `SessionFiles.HomeStays` | src/app/session_store.c:456-458 | saves without home never move an existing home |
| `SessionFiles.HomeHasSession` | src/app/session_store.c:432-434 | the home always has a session |
| `SessionFiles.AtMostFive` | src/app/session_store.c:420-429 | no run of saves exceeds five data centres |
| `Stores.UnreadableIsReplaced` | src/app/session_store.c:413-418 | a save over an unreadable file keeps nothing of it |
| `Stores.OtherVersionsUnreadable` | src/app/session_store.c:259-280 | a file of any version but 1 and 2 is unreadable, whatever follows the version |
| `SessionFiles.SaveOverOtherVersion` | src/app/session_store.c:401-446 | a save over such a file leaves it as it was if and only if the save fails, which needs a missing key or a disk fault; otherwise nothing of it is left |
| `Login.Client.ConnectDc` | src/app/auth_flow.c:33-57 | connected with a key agreed on that data centre, or the key is untouched |
| `Login.Client.Migrate` | src/app/auth_flow.c:65-71 | as above, or no key is left |
| `Login.Client.MigrateSoft` | src/app/auth_flow.c:78-94 | only the connection moves |
| `Login.Client.RequestCode` | src/app/auth_flow.c:140-166 | the outcome, the migrations and the replies used are those of the loop's specification; success leaves a connection to the data centre the key was agreed on |
| `Login.Client.SignIn` | src/app/auth_flow.c:195-274 | succeeds exactly when the reply, or the sign-up or second factor it asks for, does; a migration during sign-in gives up, after reconnecting |
| `Login.Client.Run` | src/app/auth_flow.c:96-289 | the outcome and what is left of every script are those of the specification; success means connected, to the data centre reported, with a key stored for it or agreed on it |
| `Login.LoginSucceedsIff` | src/app/auth_flow.c:96-289 | a login succeeds if and only if a stored session's data centre can be reached or a first connection, the user's input, a path of at most three full migrations to a sent code and the sign-in succeed, all stated on the scripts |
| `Login.LoginResult` | src/app/auth_flow.c:96-289 | where a successful login ends and as whom: the data centre the last migration reply named, the user of the reply that counted |
| `Login.CodeSentIff` | src/app/auth_flow.c:140-166 | a code is sent if and only if there is a path of at most three full migrations to a data centre that sends it |
| `Login.LoginBounds` | src/app/auth_flow.c:96-289 | at most three migrations; none succeeds after a soft one; a test data centre leads only to test data centres |
| `Login.SoftMigrationTaken` | src/app/auth_flow.c:148-159 | a run that takes the soft migration and fails with the code reply unread |

## Left out

- OpenSSL wrappers, RSA, PBKDF2 and gzip are foreign code and stand as arbitrary functions; for the run against an honest responder RSA is undone by the private key.
- Sockets, connecting a transport and its 0xEF marker, the file system beyond one directory with atomic rename, locks between processes, the logger and the user interface.
- Request builders, response envelopes, `api_wrap_query`, the dialogs cache and the media index, which would add only easy members.
- The types other than RichText, pages, stories, media, reply headers and messages are skipped by `TlSkip.SkipByLayout`, one walker over the layout table, instead of one hand-written method per type; `extract_chat_inner` and `extract_user_inner` are there only as skippers, without the fields they fill in.
- Medias.SkipMediaEx: what a failing call leaves in the report beyond the kind, which no caller reads, is not stated.
- ServiceRows.ServiceAction and ServiceRows.ServiceRow are functions on values, not methods that fill a row in place; a rendered text is kept as its format and arguments; when the cursor is past the end of an unaligned buffer the peek at the reply header reads memory behind the buffer in the source and nothing in the model.
- Messages.ParseHistory: the failing cursor of a shared skipper is an arbitrary function of the cursor, the same for both parsers, and so is the media report, whose values are those of `Medias.SkipMediaEx`.
- Ige.Encrypt and Ige.Decrypt: input and output are two buffers or one, not overlapping parts of one.
- Srp: the parser of account.password is not modelled.
- Handshake: message ids of the unencrypted messages are those of `Rpc.SendClear` and are not repeated there.
- HonestServer.HonestRun: whether Pollard's rho splits a given pq within nineteen attempts of a million steps is the condition of the statement, not proved for a class of pq.
- ApiCalls.Caller.Call: the wrapped query is an input, and receive and send outcomes are scripts; their byte-level meaning is that of `Rpc`.
- Rpc.SendSealed: that the frame fits the one-megabyte buffer is a precondition, as the source leaves it to its callers.
- Login.Client.Run: the final save of the session is not modelled, nor is the request to resend a code by SMS; the login goes on whether they succeed or not, and what the server makes of the code entered is an input.
