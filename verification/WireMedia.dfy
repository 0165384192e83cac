/** Photos, documents, pages, polls and stories, as a sender writes
    them, constructor by constructor: what the skippers of `src/core/tl_skip.c` read of each, and that
    they refuse every other constructor. A field behind a flag is there when its bit is set; what is
    nested is given by its bytes. */
module WireMedia {
  import opened Bytes
  import opened TlGrammar
  import opened Wires

  lemma PhotoSizeBodies()
    ensures forall c: nat :: Body(PhotoSize, c) == PhotoSizeBody(c)
  {
  }

  lemma PhotoSizeWire(c: uint32, kind: bytes, w: uint32, h: uint32, size: uint32, content: bytes, sizes: seq<bytes>)
    // photoSizeEmpty
    ensures Reads(PhotoSize, 0x0e17e23c, S(kind, End))
    // photoSize
    ensures Reads(PhotoSize, 0x75c78e60, S(kind, I(w, I(h, I(size, End)))))
    // photoCachedSize
    ensures Reads(PhotoSize, 0x021e1ad6, S(kind, I(w, I(h, S(content, End)))))
    // photoStrippedSize, photoPathSize
    ensures c in {0xe0b0bc2e, 0xd8214d41} ==> Reads(PhotoSize, c, S(kind, S(content, End)))
    // photoSizeProgressive
    ensures Reads(PhotoSize, 0xfa3efb95, S(kind, I(w, I(h, V(AnInt, sizes, End)))))
    ensures c !in {0x0e17e23c, 0x75c78e60, 0x021e1ad6, 0xe0b0bc2e, 0xd8214d41, 0xfa3efb95} ==> Refuses(PhotoSize, c)
  {
    hide Fit, Reads, Refuses, On, Skip, Body;
    Rules(PhotoSize);
    PhotoSizeBodies();
  }

  lemma PhotoBodies()
    ensures forall c: nat :: Body(Photo, c) == PhotoBody(c)
  {
  }

  lemma PhotoWire(c: uint32, id: uint64, flags: uint32, hash: uint64, reference: bytes, date: uint32,
                  sizes: seq<bytes>, videos: seq<bytes>, dc: uint32)
    // photoEmpty
    ensures Reads(Photo, 0x2331b22d, L(id, End))
    // photo
    ensures Reads(Photo, 0xfb197a65, I(flags, L(id, L(hash, S(reference, I(date, V(AnObject(PhotoSize), sizes,
            Opt(On(flags, 1), V(AnObject(VideoSize), videos, End), I(dc, End)))))))))
    ensures c !in {0x2331b22d, 0xfb197a65} ==> Refuses(Photo, c)
  {
    hide Fit, Reads, Refuses, On, Skip, Body;
    Rules(Photo);
    PhotoBodies();
  }

  lemma StickerSetBodies()
    ensures forall c: nat :: Body(StickerSet, c) == StickerSetBody(c)
  {
  }

  lemma StickerSetWire(c: uint32, id: uint64, hash: uint64, name: bytes)
    // inputStickerSetEmpty, inputStickerSetAnimatedEmoji, inputStickerSetAnimatedEmojiAnimations,
    // inputStickerSetPremiumGifts, inputStickerSetEmojiGenericAnimations, inputStickerSetEmojiDefaultStatuses,
    // inputStickerSetEmojiDefaultTopicIcons, inputStickerSetEmojiChannelDefaultStatuses
    ensures c in {0xffb62b95, 0x028703c8, 0x0cde3739, 0xc88b3b02, 0x04c4d4ce, 0x29d0f5ee, 0x44c1f8e9, 0x49748553} ==>
              Reads(StickerSet, c, End)
    // inputStickerSetID
    ensures Reads(StickerSet, 0x9de7a269, L(id, L(hash, End)))
    // inputStickerSetShortName, inputStickerSetDice
    ensures c in {0x861cc8a0, 0xe67f520e} ==> Reads(StickerSet, c, S(name, End))
    ensures c !in {0xffb62b95, 0x028703c8, 0x0cde3739, 0xc88b3b02, 0x04c4d4ce, 0x29d0f5ee, 0x44c1f8e9, 0x49748553,
                   0x9de7a269, 0x861cc8a0, 0xe67f520e} ==>
              Refuses(StickerSet, c)
  {
    hide Fit, Reads, Refuses, On, Skip, Body;
    Rules(StickerSet);
    StickerSetBodies();
  }

  lemma MaskCoordsBodies()
    ensures forall c: nat :: Body(MaskCoords, c) == MaskCoordsBody(c)
  {
  }

  lemma MaskCoordsWire(c: uint32, n: uint32, x: uint64, y: uint64, zoom: uint64)
    // maskCoords
    ensures Reads(MaskCoords, 0xaed6dbb2, I(n, L(x, L(y, L(zoom, End)))))
    ensures c !in {0xaed6dbb2} ==> Refuses(MaskCoords, c)
  {
    hide Fit, Reads, Refuses, On, Skip, Body;
    Rules(MaskCoords);
    MaskCoordsBodies();
  }

  lemma VideoSizeBodies()
    ensures forall c: nat :: Body(VideoSize, c) == VideoSizeBody(c)
  {
  }

  lemma VideoSizeWire(c: uint32, flags: uint32, kind: bytes, w: uint32, h: uint32, size: uint32, startTs: uint64,
                      emojiId: uint64, colors: seq<bytes>, stickers: bytes, stickerId: uint64)
    // videoSize
    ensures Reads(VideoSize, 0xde33b094, I(flags, S(kind, I(w, I(h, I(size, Opt(On(flags, 0), L(startTs, End),
            End)))))))
    // videoSizeEmojiMarkup
    ensures Reads(VideoSize, 0xf85c413c, L(emojiId, V(AnInt, colors, End)))
    // videoSizeStickerMarkup
    ensures Reads(VideoSize, 0x0da082fe, O(StickerSet, stickers, L(stickerId, V(AnInt, colors, End))))
    ensures c !in {0xde33b094, 0xf85c413c, 0x0da082fe} ==> Refuses(VideoSize, c)
  {
    hide Fit, Reads, Refuses, On, Skip, Body;
    Rules(VideoSize);
    VideoSizeBodies();
  }

  lemma DocumentAttributeBodies()
    ensures forall c: nat :: Body(DocumentAttribute, c) == DocumentAttributeBody(c)
  {
  }

  lemma DocumentAttributeWire1(c: uint32, w: uint32, h: uint32, fileName: bytes, flags: uint32, duration: uint64,
                               preload: uint32, startTs: uint64, codec: bytes)
    // documentAttributeImageSize
    ensures Reads(DocumentAttribute, 0x6c37c15c, I(w, I(h, End)))
    // documentAttributeAnimated, documentAttributeHasStickers
    ensures c in {0x11b58939, 0x9801d2f7} ==> Reads(DocumentAttribute, c, End)
    // documentAttributeFilename
    ensures Reads(DocumentAttribute, 0x15590068, S(fileName, End))
    // documentAttributeVideo
    ensures Reads(DocumentAttribute, 0x43c57c48, I(flags, L(duration, I(w, I(h, Opt(On(flags, 2), I(preload, End),
            Opt(On(flags, 4), L(startTs, End), Opt(On(flags, 5), S(codec, End), End))))))))
  {
    hide Fit, Reads, Refuses, On, Skip, Body;
    Rules(DocumentAttribute);
    DocumentAttributeBodies();
  }

  lemma DocumentAttributeWire2(c: uint32, flags: uint32, seconds: uint32, title: bytes, performer: bytes,
                               waveform: bytes, alt: bytes, stickers: bytes, mask: bytes)
    // documentAttributeAudio
    ensures Reads(DocumentAttribute, 0x9852f9c6, I(flags, I(seconds, Opt(On(flags, 0), S(title, End),
            Opt(On(flags, 1), S(performer, End), Opt(On(flags, 2), S(waveform, End), End))))))
    // documentAttributeSticker
    ensures Reads(DocumentAttribute, 0x6319d612, I(flags, S(alt, O(StickerSet, stickers,
            Opt(On(flags, 0), O(MaskCoords, mask, End), End)))))
    // documentAttributeCustomEmoji
    ensures Reads(DocumentAttribute, 0xfd149899, I(flags, S(alt, O(StickerSet, stickers, End))))
    ensures c !in {0x6c37c15c, 0x11b58939, 0x9801d2f7, 0x15590068, 0x43c57c48, 0x9852f9c6, 0x6319d612, 0xfd149899} ==>
              Refuses(DocumentAttribute, c)
  {
    hide Fit, Reads, Refuses, On, Skip, Body;
    Rules(DocumentAttribute);
    DocumentAttributeBodies();
  }

  lemma DocumentBodies()
    ensures forall c: nat :: Body(Document, c) == DocumentBody(c)
  {
  }

  lemma DocumentWire(c: uint32, id: uint64, flags: uint32, hash: uint64, reference: bytes, date: uint32, mime: bytes,
                     size: uint64, thumbs: seq<bytes>, videos: seq<bytes>, dc: uint32, attributes: seq<bytes>)
    // documentEmpty
    ensures Reads(Document, 0x36f8c871, L(id, End))
    // document
    ensures Reads(Document, 0x8fd4c4d8, I(flags, L(id, L(hash, S(reference, I(date, S(mime, L(size,
            Opt(On(flags, 0), V(AnObject(PhotoSize), thumbs, End),
            Opt(On(flags, 1), V(AnObject(VideoSize), videos, End), I(dc, V(AnObject(DocumentAttribute), attributes,
            End))))))))))))
    ensures c !in {0x36f8c871, 0x8fd4c4d8} ==> Refuses(Document, c)
  {
    hide Fit, Reads, Refuses, On, Skip, Body;
    Rules(Document);
    DocumentBodies();
  }

  lemma GeoPointBodies()
    ensures forall c: nat :: Body(GeoPoint, c) == GeoPointBody(c)
  {
  }

  lemma GeoPointWire(c: uint32, flags: uint32, long: uint64, lat: uint64, hash: uint64, radius: uint32)
    // geoPointEmpty
    ensures Reads(GeoPoint, 0x1117dd5f, End)
    // geoPoint
    ensures Reads(GeoPoint, 0xb2a2f663, I(flags, L(long, L(lat, L(hash, Opt(On(flags, 0), I(radius, End), End))))))
    ensures c !in {0x1117dd5f, 0xb2a2f663} ==> Refuses(GeoPoint, c)
  {
    hide Fit, Reads, Refuses, On, Skip, Body;
    Rules(GeoPoint);
    GeoPointBodies();
  }

  lemma RichTextBodies()
    ensures forall c: nat :: Body(RichText, c) == RichTextBody(c)
  {
  }

  lemma RichTextWire(c: uint32, plain: bytes, text: bytes, url: bytes, webpageId: uint64, name: bytes,
                     texts: seq<bytes>, documentId: uint64, w: uint32, h: uint32)
    // textEmpty
    ensures Reads(RichText, 0xdc3d824f, End)
    // textPlain
    ensures Reads(RichText, 0x744694e0, S(plain, End))
    // textBold, textItalic, textUnderline, textStrike, textFixed, textSubscript, textSuperscript, textMarked
    ensures c in {0x6724abc4, 0xd912a59c, 0xc12622c4, 0x9bf8bb95, 0x6c3f19b9, 0xed6a8504, 0xc7fb5e01, 0x034b27f6} ==>
              Reads(RichText, c, O(RichText, text, End))
    // textUrl
    ensures Reads(RichText, 0x3c2884c1, O(RichText, text, S(url, L(webpageId, End))))
    // textEmail, textPhone, textAnchor
    ensures c in {0xde5a0dd6, 0x1ccb966a, 0x35553762} ==> Reads(RichText, c, O(RichText, text, S(name, End)))
    // textConcat
    ensures Reads(RichText, 0x7e6260d7, V(AnObject(RichText), texts, End))
    // textImage
    ensures Reads(RichText, 0x081ccf4f, L(documentId, I(w, I(h, End))))
    ensures c !in {0xdc3d824f, 0x744694e0, 0x6724abc4, 0xd912a59c, 0xc12622c4, 0x9bf8bb95, 0x6c3f19b9, 0xed6a8504,
                   0xc7fb5e01, 0x034b27f6, 0x3c2884c1, 0xde5a0dd6, 0x1ccb966a, 0x35553762, 0x7e6260d7, 0x081ccf4f} ==>
              Refuses(RichText, c)
  {
    hide Fit, Reads, Refuses, On, Skip, Body;
    Rules(RichText);
    RichTextBodies();
  }

  lemma PageCaptionBodies()
    ensures forall c: nat :: Body(PageCaption, c) == PageCaptionBody(c)
  {
  }

  lemma PageCaptionWire(c: uint32, text: bytes, credit: bytes)
    // pageCaption
    ensures Reads(PageCaption, 0x6f747657, O(RichText, text, O(RichText, credit, End)))
    ensures c !in {0x6f747657} ==> Refuses(PageCaption, c)
  {
    hide Fit, Reads, Refuses, On, Skip, Body;
    Rules(PageCaption);
    PageCaptionBodies();
  }

  lemma PageListItemBodies()
    ensures forall c: nat :: Body(PageListItem, c) == PageListItemBody(c)
  {
  }

  lemma PageListItemWire(c: uint32, text: bytes, blocks: seq<bytes>)
    // pageListItemText
    ensures Reads(PageListItem, 0xb92fb6cd, O(RichText, text, End))
    // pageListItemBlocks
    ensures Reads(PageListItem, 0x25e073fc, V(AnObject(PageBlock), blocks, End))
    ensures c !in {0xb92fb6cd, 0x25e073fc} ==> Refuses(PageListItem, c)
  {
    hide Fit, Reads, Refuses, On, Skip, Body;
    Rules(PageListItem);
    PageListItemBodies();
  }

  lemma PageListOrderedItemBodies()
    ensures forall c: nat :: Body(PageListOrderedItem, c) == PageListOrderedItemBody(c)
  {
  }

  lemma PageListOrderedItemWire(c: uint32, num: bytes, text: bytes, blocks: seq<bytes>)
    // pageListOrderedItemText
    ensures Reads(PageListOrderedItem, 0x5e068047, S(num, O(RichText, text, End)))
    // pageListOrderedItemBlocks
    ensures Reads(PageListOrderedItem, 0x98dd8936, S(num, V(AnObject(PageBlock), blocks, End)))
    ensures c !in {0x5e068047, 0x98dd8936} ==> Refuses(PageListOrderedItem, c)
  {
    hide Fit, Reads, Refuses, On, Skip, Body;
    Rules(PageListOrderedItem);
    PageListOrderedItemBodies();
  }

  lemma PageTableCellBodies()
    ensures forall c: nat :: Body(PageTableCell, c) == PageTableCellBody(c)
  {
  }

  lemma PageTableCellWire(c: uint32, flags: uint32, text: bytes, colspan: uint32, rowspan: uint32)
    // pageTableCell
    ensures Reads(PageTableCell, 0x34566b6a, I(flags, Opt(On(flags, 7), O(RichText, text, End),
            Opt(On(flags, 1), I(colspan, End), Opt(On(flags, 2), I(rowspan, End), End)))))
    ensures c !in {0x34566b6a} ==> Refuses(PageTableCell, c)
  {
    hide Fit, Reads, Refuses, On, Skip, Body;
    Rules(PageTableCell);
    PageTableCellBodies();
  }

  lemma PageTableRowBodies()
    ensures forall c: nat :: Body(PageTableRow, c) == PageTableRowBody(c)
  {
  }

  lemma PageTableRowWire(c: uint32, cells: seq<bytes>)
    // pageTableRow
    ensures Reads(PageTableRow, 0xe0c0c5e5, V(AnObject(PageTableCell), cells, End))
    ensures c !in {0xe0c0c5e5} ==> Refuses(PageTableRow, c)
  {
    hide Fit, Reads, Refuses, On, Skip, Body;
    Rules(PageTableRow);
    PageTableRowBodies();
  }

  lemma PageRelatedArticleBodies()
    ensures forall c: nat :: Body(PageRelatedArticle, c) == PageRelatedArticleBody(c)
  {
  }

  lemma PageRelatedArticleWire(c: uint32, flags: uint32, url: bytes, webpageId: uint64, title: bytes,
                               description: bytes, photoId: uint64, author: bytes, date: uint32)
    // pageRelatedArticle
    ensures Reads(PageRelatedArticle, 0xb390dc08, I(flags, S(url, L(webpageId, Opt(On(flags, 0), S(title, End),
            Opt(On(flags, 1), S(description, End), Opt(On(flags, 2), L(photoId, End),
            Opt(On(flags, 3), S(author, End), Opt(On(flags, 4), I(date, End), End)))))))))
    ensures c !in {0xb390dc08} ==> Refuses(PageRelatedArticle, c)
  {
    hide Fit, Reads, Refuses, On, Skip, Body;
    Rules(PageRelatedArticle);
    PageRelatedArticleBodies();
  }

  lemma PageBlockBodies()
    ensures forall c: nat :: Body(PageBlock, c) == PageBlockBody(c)
  {
  }

  lemma PageBlockWire1(c: uint32, text: bytes, name: bytes, language: bytes, date: uint32)
    // pageBlockUnsupported, pageBlockDivider
    ensures c in {0x13567e8a, 0xdb20b188} ==> Reads(PageBlock, c, End)
    // pageBlockTitle, pageBlockSubtitle, pageBlockHeader, pageBlockSubheader, pageBlockKicker, pageBlockParagraph,
    // pageBlockFooter
    ensures c in {0x70abc3fd, 0x8ffa9a1f, 0xbfd064ec, 0xf12bb6e1, 0x1e148390, 0x467a0766, 0x48870999} ==>
              Reads(PageBlock, c, O(RichText, text, End))
    // pageBlockAnchor
    ensures Reads(PageBlock, 0xce0d37b0, S(name, End))
    // pageBlockPreformatted
    ensures Reads(PageBlock, 0xc070d93e, O(RichText, text, S(language, End)))
    // pageBlockAuthorDate
    ensures Reads(PageBlock, 0xbaafe5e0, O(RichText, text, I(date, End)))
  {
    hide Fit, Reads, Refuses, On, Skip, Body;
    Rules(PageBlock);
    PageBlockBodies();
  }

  lemma PageBlockWire2(c: uint32, text: bytes, title: bytes, flags: uint32, id: uint64, caption: bytes, url: bytes,
                       webpageId: uint64, cover: bytes)
    // pageBlockBlockquote, pageBlockPullquote
    ensures c in {0x263d7c26, 0x4f4456d5} ==> Reads(PageBlock, c, O(RichText, text, O(RichText, title, End)))
    // pageBlockPhoto
    ensures Reads(PageBlock, 0x1759c560, I(flags, L(id, O(PageCaption, caption,
            Opt(On(flags, 0), S(url, L(webpageId, End)), End)))))
    // pageBlockVideo
    ensures Reads(PageBlock, 0x7c8fe7b6, I(flags, L(id, O(PageCaption, caption, End))))
    // pageBlockAudio
    ensures Reads(PageBlock, 0x804361ea, L(id, O(PageCaption, caption, End)))
    // pageBlockCover
    ensures Reads(PageBlock, 0x39f23300, O(PageBlock, cover, End))
  {
    hide Fit, Reads, Refuses, On, Skip, Body;
    Rules(PageBlock);
    PageBlockBodies();
  }

  lemma PageBlockWire3(c: uint32, channel: bytes, geo: bytes, zoom: uint32, w: uint32, h: uint32, caption: bytes,
                       items: seq<bytes>, blocks: seq<bytes>)
    // pageBlockChannel
    ensures Reads(PageBlock, 0xef1751b5, O(Chat, channel, End))
    // pageBlockMap
    ensures Reads(PageBlock, 0xa44f3ef6, O(GeoPoint, geo, I(zoom, I(w, I(h, O(PageCaption, caption, End))))))
    // pageBlockList
    ensures Reads(PageBlock, 0xe4e88011, V(AnObject(PageListItem), items, End))
    // pageBlockOrderedList
    ensures Reads(PageBlock, 0x9a8ae1e1, V(AnObject(PageListOrderedItem), items, End))
    // pageBlockCollage, pageBlockSlideshow
    ensures c in {0x65a0fa4d, 0x031f9590} ==>
              Reads(PageBlock, c, V(AnObject(PageBlock), blocks, O(PageCaption, caption, End)))
  {
    hide Fit, Reads, Refuses, On, Skip, Body;
    Rules(PageBlock);
    PageBlockBodies();
  }

  lemma PageBlockWire4(flags: uint32, blocks: seq<bytes>, title: bytes, items: seq<bytes>, url: bytes, html: bytes,
                       posterId: uint64, w: uint32, h: uint32, caption: bytes, webpageId: uint64, id: uint64,
                       name: bytes, date: uint32)
    // pageBlockDetails
    ensures Reads(PageBlock, 0x76768bed, I(flags, V(AnObject(PageBlock), blocks, O(RichText, title, End))))
    // pageBlockRelatedArticles
    ensures Reads(PageBlock, 0x16115a96, O(RichText, title, V(AnObject(PageRelatedArticle), items, End)))
    // pageBlockTable
    ensures Reads(PageBlock, 0xbf4dea82, I(flags, O(RichText, title, V(AnObject(PageTableRow), items, End))))
    // pageBlockEmbed
    ensures Reads(PageBlock, 0xa8718dc5, I(flags, Opt(On(flags, 1), S(url, End), Opt(On(flags, 2), S(html, End),
            Opt(On(flags, 4), L(posterId, End), Opt(On(flags, 5), I(w, I(h, End)), O(PageCaption, caption, End)))))))
    // pageBlockEmbedPost
    ensures Reads(PageBlock, 0xf259a80b, S(url, L(webpageId, L(id, S(name, I(date, V(AnObject(PageBlock), blocks,
            O(PageCaption, caption, End))))))))
  {
    hide Fit, Reads, Refuses, On, Skip, Body;
    Rules(PageBlock);
    PageBlockBodies();
    FitReads(PageBlock, 0xa8718dc5, I(flags, Opt(On(flags, 1), S(url, End), Opt(On(flags, 2), S(html, End),
      Opt(On(flags, 4), L(posterId, End), Opt(On(flags, 5), I(w, I(h, End)), O(PageCaption, caption, End)))))));
    FitReads(PageBlock, 0xf259a80b, S(url, L(webpageId, L(id, S(name, I(date, V(AnObject(PageBlock), blocks,
      O(PageCaption, caption, End))))))));
  }

  lemma PageBlockRefused(c: uint32)
    ensures c !in {0x13567e8a, 0xdb20b188, 0x70abc3fd, 0x8ffa9a1f, 0xbfd064ec, 0xf12bb6e1, 0x1e148390, 0x467a0766,
                   0x48870999, 0xce0d37b0, 0xc070d93e, 0xbaafe5e0, 0x263d7c26, 0x4f4456d5, 0x1759c560, 0x7c8fe7b6,
                   0x804361ea, 0x39f23300, 0xef1751b5, 0xa44f3ef6, 0xe4e88011, 0x9a8ae1e1, 0x65a0fa4d, 0x031f9590,
                   0x76768bed, 0x16115a96, 0xbf4dea82, 0xa8718dc5, 0xf259a80b} ==>
              Refuses(PageBlock, c)
  {
    hide Fit, Reads, Refuses, On, Skip, Body;
    Rules(PageBlock);
    PageBlockBodies();
  }

  lemma PageBodies()
    ensures forall c: nat :: Body(Page, c) == PageBody(c)
  {
  }

  lemma PageWire(c: uint32, flags: uint32, url: bytes, blocks: seq<bytes>, photos: seq<bytes>, documents: seq<bytes>,
                 views: uint32)
    // page
    ensures Reads(Page, 0x98657f0d, I(flags, S(url, V(AnObject(PageBlock), blocks, V(AnObject(Photo), photos,
            V(AnObject(Document), documents, Opt(On(flags, 3), I(views, End), End)))))))
    ensures c !in {0x98657f0d} ==> Refuses(Page, c)
  {
    hide Fit, Reads, Refuses, On, Skip, Body;
    Rules(Page);
    PageBodies();
  }

  lemma WallPaperSettingsBodies()
    ensures forall c: nat :: Body(WallPaperSettings, c) == WallPaperSettingsBody(c)
  {
  }

  lemma WallPaperSettingsWire(c: uint32, flags: uint32, first: uint32, second: uint32, third: uint32, fourth: uint32,
                              intensity: uint32, rotation: uint32, emoticon: bytes)
    // wallPaperSettings
    ensures Reads(WallPaperSettings, 0x372efcd0, I(flags, Opt(On(flags, 0), I(first, End),
            Opt(On(flags, 4), I(second, End), Opt(On(flags, 5), I(third, End), Opt(On(flags, 6), I(fourth, End),
            Opt(On(flags, 3), I(intensity, End), Opt(On(flags, 7), I(rotation, End),
            Opt(On(flags, 8), S(emoticon, End), End)))))))))
    ensures c !in {0x372efcd0} ==> Refuses(WallPaperSettings, c)
  {
    hide Fit, Reads, Refuses, On, Skip, Body;
    Rules(WallPaperSettings);
    WallPaperSettingsBodies();
  }

  lemma WallPaperBodies()
    ensures forall c: nat :: Body(WallPaper, c) == WallPaperBody(c)
  {
  }

  lemma WallPaperWire(c: uint32, id: uint64, hash: uint64, reference: bytes, slug: bytes, settings: bytes,
                      flags: uint32, document: bytes)
    // wallPaper
    ensures Reads(WallPaper, 0xa437c3ed, L(id, L(hash, S(reference, S(slug, O(WallPaperSettings, settings, I(flags,
            Opt(On(flags, 2), O(Document, document, End), End))))))))
    // wallPaperNoFile
    ensures Reads(WallPaper, 0xe0804116, L(id, I(flags, Opt(On(flags, 2), O(WallPaperSettings, settings, End), End))))
    ensures c !in {0xa437c3ed, 0xe0804116} ==> Refuses(WallPaper, c)
  {
    hide Fit, Reads, Refuses, On, Skip, Body;
    Rules(WallPaper);
    WallPaperBodies();
  }

  lemma BaseThemeBodies()
    ensures forall c: nat :: Body(BaseTheme, c) == BaseThemeBody(c)
  {
  }

  lemma BaseThemeWire(c: uint32)
    // baseThemeClassic, baseThemeDay, baseThemeDark, baseThemeTinted, baseThemeArctic
    ensures c in {0xc3a12462, 0xfbd81688, 0xb7b31ea8, 0x6d5f77ee, 0x5b11125a} ==> Reads(BaseTheme, c, End)
    ensures c !in {0xc3a12462, 0xfbd81688, 0xb7b31ea8, 0x6d5f77ee, 0x5b11125a} ==> Refuses(BaseTheme, c)
  {
    hide Fit, Reads, Refuses, On, Skip, Body;
    Rules(BaseTheme);
    BaseThemeBodies();
  }

  lemma ThemeSettingsBodies()
    ensures forall c: nat :: Body(ThemeSettings, c) == ThemeSettingsBody(c)
  {
  }

  lemma ThemeSettingsWire(c: uint32, flags: uint32, base: bytes, accent: uint32, iconId: uint64, outbox: uint32,
                          colors: seq<bytes>, wallpaper: bytes)
    // themeSettings
    ensures Reads(ThemeSettings, 0xfa58b6d4, I(flags, O(BaseTheme, base, I(accent, Opt(On(flags, 0), L(iconId, End),
            Opt(On(flags, 3), I(outbox, End), Opt(On(flags, 1), V(AnInt, colors, End),
            Opt(On(flags, 2), O(WallPaper, wallpaper, End), End))))))))
    ensures c !in {0xfa58b6d4} ==> Refuses(ThemeSettings, c)
  {
    hide Fit, Reads, Refuses, On, Skip, Body;
    Rules(ThemeSettings);
    ThemeSettingsBodies();
  }

  lemma WebPageAttributeBodies()
    ensures forall c: nat :: Body(WebPageAttribute, c) == WebPageAttributeBody(c)
  {
  }

  lemma WebPageAttributeWire(c: uint32, flags: uint32, documents: seq<bytes>, settings: bytes, peer: bytes,
                             id: uint32, story: bytes)
    // webPageAttributeTheme
    ensures Reads(WebPageAttribute, 0x54b56617, I(flags, Opt(On(flags, 0), V(AnObject(Document), documents, End),
            Opt(On(flags, 1), O(ThemeSettings, settings, End), End))))
    // webPageAttributeStory
    ensures Reads(WebPageAttribute, 0x2e94c3e7, I(flags, O(Peer, peer, I(id,
            Opt(On(flags, 0), O(StoryItem, story, End), End)))))
    // webPageAttributeStickerSet
    ensures Reads(WebPageAttribute, 0x50cc03d3, I(flags, V(AnObject(Document), documents, End)))
    ensures c !in {0x54b56617, 0x2e94c3e7, 0x50cc03d3} ==> Refuses(WebPageAttribute, c)
  {
    hide Fit, Reads, Refuses, On, Skip, Body;
    Rules(WebPageAttribute);
    WebPageAttributeBodies();
  }

  lemma WebPageBodies()
    ensures forall c: nat :: Body(WebPage, c) == WebPageBody(c)
  {
  }

  lemma WebPageWire1(flags: uint32, id: uint64, url: bytes, date: uint32, views: uint32)
    // webPageEmpty
    ensures Reads(WebPage, 0xeb1477e8, I(flags, L(id, Opt(On(flags, 0), S(url, End), End))))
    // webPagePending
    ensures Reads(WebPage, 0xb0d13e47, I(flags, L(id, Opt(On(flags, 0), S(url, End), I(date, End)))))
    // webPageNotModified
    ensures Reads(WebPage, 0x7311ca11, I(flags, Opt(On(flags, 0), I(views, End), End)))
  {
    hide Fit, Reads, Refuses, On, Skip, Body;
    Rules(WebPage);
    WebPageBodies();
  }

  lemma WebPageWire2(flags: uint32, id: uint64, url: bytes, displayUrl: bytes, hash: uint32, kind: bytes,
                     siteName: bytes, title: bytes, description: bytes, photo: bytes, embedUrl: bytes,
                     embedType: bytes, w: uint32, h: uint32, duration: uint32, author: bytes, document: bytes,
                     page: bytes, attributes: seq<bytes>)
    // webPage
    ensures Reads(WebPage, 0xe89c45b2, I(flags, L(id, S(url, S(displayUrl, I(hash, Opt(On(flags, 0), S(kind, End),
            Opt(On(flags, 1), S(siteName, End), Opt(On(flags, 2), S(title, End),
            Opt(On(flags, 3), S(description, End), Opt(On(flags, 4), O(Photo, photo, End),
            Opt(On(flags, 5), S(embedUrl, S(embedType, End)), Opt(On(flags, 6), I(w, I(h, End)),
            Opt(On(flags, 7), I(duration, End), Opt(On(flags, 8), S(author, End),
            Opt(On(flags, 9), O(Document, document, End), Opt(On(flags, 10), O(Page, page, End),
            Opt(On(flags, 12), V(AnObject(WebPageAttribute), attributes, End), End))))))))))))))))))
  {
    hide Fit, Reads, Refuses, On, Skip, Body;
    Rules(WebPage);
    WebPageBodies();
    FitReads(WebPage, 0xe89c45b2, I(flags, L(id, S(url, S(displayUrl, I(hash, Opt(On(flags, 0), S(kind, End),
      Opt(On(flags, 1), S(siteName, End), Opt(On(flags, 2), S(title, End), Opt(On(flags, 3), S(description, End),
      Opt(On(flags, 4), O(Photo, photo, End), Opt(On(flags, 5), S(embedUrl, S(embedType, End)),
      Opt(On(flags, 6), I(w, I(h, End)), Opt(On(flags, 7), I(duration, End), Opt(On(flags, 8), S(author, End),
      Opt(On(flags, 9), O(Document, document, End), Opt(On(flags, 10), O(Page, page, End),
      Opt(On(flags, 12), V(AnObject(WebPageAttribute), attributes, End), End))))))))))))))))));
  }

  lemma WebPageRefused(c: uint32)
    ensures c !in {0xeb1477e8, 0xb0d13e47, 0x7311ca11, 0xe89c45b2} ==> Refuses(WebPage, c)
  {
    hide Fit, Reads, Refuses, On, Skip, Body;
    Rules(WebPage);
    WebPageBodies();
  }

  lemma PollBodies()
    ensures forall c: nat :: Body(Poll, c) == PollBody(c)
  {
  }

  lemma PollWire(c: uint32, flags: uint32, id: uint64, question: bytes, answers: seq<bytes>, period: uint32,
                 date: uint32)
    // poll
    ensures Reads(Poll, 0x58747131, I(flags, L(id, O(TextWithEntities, question, V(AnObject(PollAnswer), answers,
            Opt(On(flags, 4), I(period, End), Opt(On(flags, 5), I(date, End), End)))))))
    ensures c !in {0x58747131} ==> Refuses(Poll, c)
  {
    hide Fit, Reads, Refuses, On, Skip, Body;
    Rules(Poll);
    PollBodies();
  }

  lemma PollAnswerBodies()
    ensures forall c: nat :: Body(PollAnswer, c) == PollAnswerBody(c)
  {
  }

  lemma PollAnswerWire(c: uint32, text: bytes, option: bytes)
    // pollAnswer
    ensures Reads(PollAnswer, 0x6ca9c2e9, O(TextWithEntities, text, S(option, End)))
    ensures c !in {0x6ca9c2e9} ==> Refuses(PollAnswer, c)
  {
    hide Fit, Reads, Refuses, On, Skip, Body;
    Rules(PollAnswer);
    PollAnswerBodies();
  }

  lemma PollAnswerVotersBodies()
    ensures forall c: nat :: Body(PollAnswerVoters, c) == PollAnswerVotersBody(c)
  {
  }

  lemma PollAnswerVotersWire(c: uint32, flags: uint32, option: bytes, voters: uint32)
    // pollAnswerVoters
    ensures Reads(PollAnswerVoters, 0x3b6ddad2, I(flags, S(option, I(voters, End))))
    ensures c !in {0x3b6ddad2} ==> Refuses(PollAnswerVoters, c)
  {
    hide Fit, Reads, Refuses, On, Skip, Body;
    Rules(PollAnswerVoters);
    PollAnswerVotersBodies();
  }

  lemma PollResultsBodies()
    ensures forall c: nat :: Body(PollResults, c) == PollResultsBody(c)
  {
  }

  lemma PollResultsWire(c: uint32, flags: uint32, results: seq<bytes>, total: uint32, recent: seq<bytes>,
                        solution: bytes, entities: seq<bytes>)
    // pollResults
    ensures Reads(PollResults, 0x7adc669d, I(flags, Opt(On(flags, 1), V(AnObject(PollAnswerVoters), results, End),
            Opt(On(flags, 2), I(total, End), Opt(On(flags, 3), V(AnObject(Peer), recent, End),
            Opt(On(flags, 4), S(solution, V(AnObject(Entity), entities, End)), End))))))
    ensures c !in {0x7adc669d} ==> Refuses(PollResults, c)
  {
    hide Fit, Reads, Refuses, On, Skip, Body;
    Rules(PollResults);
    PollResultsBodies();
  }

  lemma GameBodies()
    ensures forall c: nat :: Body(Game, c) == GameBody(c)
  {
  }

  lemma GameWire(c: uint32, flags: uint32, id: uint64, hash: uint64, shortName: bytes, title: bytes,
                 description: bytes, photo: bytes, document: bytes)
    // game
    ensures Reads(Game, 0xbdf9653b, I(flags, L(id, L(hash, S(shortName, S(title, S(description, O(Photo, photo,
            Opt(On(flags, 0), O(Document, document, End), End)))))))))
    ensures c !in {0xbdf9653b} ==> Refuses(Game, c)
  {
    hide Fit, Reads, Refuses, On, Skip, Body;
    Rules(Game);
    GameBodies();
  }

  lemma ExtendedMediaBodies()
    ensures forall c: nat :: Body(ExtendedMedia, c) == ExtendedMediaBody(c)
  {
  }

  lemma ExtendedMediaWire(c: uint32, flags: uint32, w: uint32, h: uint32, thumb: bytes, duration: uint32,
                          media: bytes)
    // messageExtendedMediaPreview
    ensures Reads(ExtendedMedia, 0xad628cc8, I(flags, Opt(On(flags, 0), I(w, I(h, End)),
            Opt(On(flags, 1), O(PhotoSize, thumb, End), Opt(On(flags, 2), I(duration, End), End)))))
    // messageExtendedMedia
    ensures Reads(ExtendedMedia, 0xee479c64, O(Media, media, End))
    ensures c !in {0xad628cc8, 0xee479c64} ==> Refuses(ExtendedMedia, c)
  {
    hide Fit, Reads, Refuses, On, Skip, Body;
    Rules(ExtendedMedia);
    ExtendedMediaBodies();
  }

  lemma WebDocumentBodies()
    ensures forall c: nat :: Body(WebDocument, c) == WebDocumentBody(c)
  {
  }

  lemma WebDocumentWire(c: uint32, url: bytes, hash: uint64, size: uint32, mime: bytes, attributes: seq<bytes>)
    // webDocument
    ensures Reads(WebDocument, 0x1c570ed1, S(url, L(hash, I(size, S(mime, V(AnObject(DocumentAttribute), attributes,
            End))))))
    // webDocumentNoProxy
    ensures Reads(WebDocument, 0xf9c8bcc6, S(url, I(size, S(mime, V(AnObject(DocumentAttribute), attributes, End)))))
    ensures c !in {0x1c570ed1, 0xf9c8bcc6} ==> Refuses(WebDocument, c)
  {
    hide Fit, Reads, Refuses, On, Skip, Body;
    Rules(WebDocument);
    WebDocumentBodies();
  }

  lemma StoryFwdHeaderBodies()
    ensures forall c: nat :: Body(StoryFwdHeader, c) == StoryFwdHeaderBody(c)
  {
  }

  lemma StoryFwdHeaderWire(c: uint32, flags: uint32, from: bytes, fromName: bytes, storyId: uint32)
    // storyFwdHeader
    ensures Reads(StoryFwdHeader, 0xb826e150, I(flags, Opt(On(flags, 0), O(Peer, from, End),
            Opt(On(flags, 1), S(fromName, End), Opt(On(flags, 2), I(storyId, End), End)))))
    ensures c !in {0xb826e150} ==> Refuses(StoryFwdHeader, c)
  {
    hide Fit, Reads, Refuses, On, Skip, Body;
    Rules(StoryFwdHeader);
    StoryFwdHeaderBodies();
  }

  lemma AreaCoordinatesBodies()
    ensures forall c: nat :: Body(AreaCoordinates, c) == AreaCoordinatesBody(c)
  {
  }

  lemma AreaCoordinatesWire(c: uint32, flags: uint32, x: uint64, y: uint64, w: uint64, h: uint64, rotation: uint64,
                            radius: uint64)
    // mediaAreaCoordinates
    ensures Reads(AreaCoordinates, 0x03d1ea4e, I(flags, L(x, L(y, L(w, L(h, L(rotation,
            Opt(On(flags, 0), L(radius, End), End))))))))
    ensures c !in {0x03d1ea4e} ==> Refuses(AreaCoordinates, c)
  {
    hide Fit, Reads, Refuses, On, Skip, Body;
    Rules(AreaCoordinates);
    AreaCoordinatesBodies();
  }

  lemma GeoPointAddressBodies()
    ensures forall c: nat :: Body(GeoPointAddress, c) == GeoPointAddressBody(c)
  {
  }

  lemma GeoPointAddressWire(c: uint32, flags: uint32, country: bytes, state: bytes, city: bytes, street: bytes)
    // geoPointAddress
    ensures Reads(GeoPointAddress, 0xde4c5d93, I(flags, S(country, Opt(On(flags, 0), S(state, End),
            Opt(On(flags, 1), S(city, End), Opt(On(flags, 2), S(street, End), End))))))
    ensures c !in {0xde4c5d93} ==> Refuses(GeoPointAddress, c)
  {
    hide Fit, Reads, Refuses, On, Skip, Body;
    Rules(GeoPointAddress);
    GeoPointAddressBodies();
  }

  lemma MediaAreaBodies()
    ensures forall c: nat :: Body(MediaArea, c) == MediaAreaBody(c)
  {
  }

  lemma MediaAreaWire1(area: bytes, geo: bytes, title: bytes, address: bytes, provider: bytes, venueId: bytes,
                       venueType: bytes, flags: uint32, place: bytes, reaction: bytes, channelId: uint64,
                       msgId: uint32)
    // mediaAreaVenue
    ensures Reads(MediaArea, 0xbe82db9c, O(AreaCoordinates, area, O(GeoPoint, geo, S(title, S(address, S(provider,
            S(venueId, S(venueType, End))))))))
    // mediaAreaGeoPoint
    ensures Reads(MediaArea, 0xdf8b3b22, I(flags, O(AreaCoordinates, area, O(GeoPoint, geo,
            Opt(On(flags, 0), O(GeoPointAddress, place, End), End)))))
    // mediaAreaSuggestedReaction
    ensures Reads(MediaArea, 0x14455871, I(flags, O(AreaCoordinates, area, O(Reaction, reaction, End))))
    // mediaAreaChannelPost
    ensures Reads(MediaArea, 0x770416af, O(AreaCoordinates, area, L(channelId, I(msgId, End))))
  {
    hide Fit, Reads, Refuses, On, Skip, Body;
    Rules(MediaArea);
    MediaAreaBodies();
  }

  lemma MediaAreaWire2(c: uint32, area: bytes, url: bytes, emoji: bytes, temperature: uint64, color: uint32)
    // mediaAreaUrl, mediaAreaStarGift
    ensures c in {0x37381085, 0x5787686d} ==> Reads(MediaArea, c, O(AreaCoordinates, area, S(url, End)))
    // mediaAreaWeather
    ensures Reads(MediaArea, 0x49a6549c, O(AreaCoordinates, area, S(emoji, L(temperature, I(color, End)))))
    ensures c !in {0xbe82db9c, 0xdf8b3b22, 0x14455871, 0x770416af, 0x37381085, 0x5787686d, 0x49a6549c} ==>
              Refuses(MediaArea, c)
  {
    hide Fit, Reads, Refuses, On, Skip, Body;
    Rules(MediaArea);
    MediaAreaBodies();
  }

  lemma PrivacyRuleBodies()
    ensures forall c: nat :: Body(PrivacyRule, c) == PrivacyRuleBody(c)
  {
  }

  lemma PrivacyRuleWire(c: uint32, ids: seq<bytes>)
    // privacyValueAllowContacts, privacyValueAllowAll, privacyValueDisallowContacts, privacyValueDisallowAll,
    // privacyValueAllowCloseFriends, privacyValueAllowPremium, privacyValueAllowBots, privacyValueDisallowBots
    ensures c in {0xfffe1bac, 0x65427b82, 0xf888fa1a, 0x8b73e763, 0xf7e8d89b, 0xece9814b, 0x21461b5d, 0xf6a5f82f} ==>
              Reads(PrivacyRule, c, End)
    // privacyValueAllowUsers, privacyValueDisallowUsers, privacyValueAllowChatParticipants,
    // privacyValueDisallowChatParticipants
    ensures c in {0xb8905fb2, 0xe4621141, 0x6b134e8e, 0x41c87565} ==> Reads(PrivacyRule, c, V(ALong, ids, End))
    ensures c !in {0xfffe1bac, 0x65427b82, 0xf888fa1a, 0x8b73e763, 0xf7e8d89b, 0xece9814b, 0x21461b5d, 0xf6a5f82f,
                   0xb8905fb2, 0xe4621141, 0x6b134e8e, 0x41c87565} ==>
              Refuses(PrivacyRule, c)
  {
    hide Fit, Reads, Refuses, On, Skip, Body;
    Rules(PrivacyRule);
    PrivacyRuleBodies();
  }

  lemma StoryViewsBodies()
    ensures forall c: nat :: Body(StoryViews, c) == StoryViewsBody(c)
  {
  }

  lemma StoryViewsWire(c: uint32, flags: uint32, views: uint32, forwards: uint32, reactions: seq<bytes>,
                       count: uint32, viewers: seq<bytes>)
    // storyViews
    ensures Reads(StoryViews, 0x8d595cd6, I(flags, I(views, Opt(On(flags, 2), I(forwards, End),
            Opt(On(flags, 3), V(AnObject(ReactionCount), reactions, End), Opt(On(flags, 4), I(count, End),
            Opt(On(flags, 0), V(ALong, viewers, End), End)))))))
    ensures c !in {0x8d595cd6} ==> Refuses(StoryViews, c)
  {
    hide Fit, Reads, Refuses, On, Skip, Body;
    Rules(StoryViews);
    StoryViewsBodies();
  }

  lemma StoryItemBodies()
    ensures forall c: nat :: Body(StoryItem, c) == StoryItemBody(c)
  {
  }

  lemma StoryItemWire(id: uint32, flags: uint32, date: uint32, expires: uint32, from: bytes, fwd: bytes,
                      caption: bytes, entities: seq<bytes>, media: bytes, areas: seq<bytes>, privacy: seq<bytes>,
                      views: bytes, reaction: bytes)
    // storyItemDeleted
    ensures Reads(StoryItem, 0x51e6ee4f, I(id, End))
    // storyItemSkipped
    ensures Reads(StoryItem, 0xffadc913, I(flags, I(id, I(date, I(expires, End)))))
    // storyItem
    ensures Reads(StoryItem, 0x79b26a24, I(flags, I(id, I(date, Opt(On(flags, 18), O(Peer, from, End),
            Opt(On(flags, 17), O(StoryFwdHeader, fwd, End), I(expires, Opt(On(flags, 0), S(caption, End),
            Opt(On(flags, 1), V(AnObject(Entity), entities, End), O(Media, media,
            Opt(On(flags, 14), V(AnObject(MediaArea), areas, End),
            Opt(On(flags, 2), V(AnObject(PrivacyRule), privacy, End), Opt(On(flags, 3), O(StoryViews, views, End),
            Opt(On(flags, 15), O(Reaction, reaction, End), End))))))))))))))
  {
    hide Fit, Reads, Refuses, On, Skip, Body;
    Rules(StoryItem);
    StoryItemBodies();
    FitReads(StoryItem, 0xffadc913, I(flags, I(id, I(date, I(expires, End)))));
    FitReads(StoryItem, 0x79b26a24, I(flags, I(id, I(date, Opt(On(flags, 18), O(Peer, from, End),
      Opt(On(flags, 17), O(StoryFwdHeader, fwd, End), I(expires, Opt(On(flags, 0), S(caption, End),
      Opt(On(flags, 1), V(AnObject(Entity), entities, End), O(Media, media,
      Opt(On(flags, 14), V(AnObject(MediaArea), areas, End), Opt(On(flags, 2), V(AnObject(PrivacyRule), privacy, End),
      Opt(On(flags, 3), O(StoryViews, views, End), Opt(On(flags, 15), O(Reaction, reaction, End), End))))))))))))));
  }

  lemma StoryItemRefused(c: uint32)
    ensures c !in {0x51e6ee4f, 0xffadc913, 0x79b26a24} ==> Refuses(StoryItem, c)
  {
    hide Fit, Reads, Refuses, On, Skip, Body;
    Rules(StoryItem);
    StoryItemBodies();
  }
}
