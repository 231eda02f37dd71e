# Verification model of the file storage service

This project models, in Dafny, the parts of the storage service whose correctness is not visible from reading one
function, and proves properties of them. `dafny verify dfyconfig.toml` checks everything.

- **Disk file cache** (`FileCache.dfy`, `FileCacheRuns.dfy`, `FileCacheOrder.dfy`, `Lru.dfy`): each region under the cache's lock is a method
  proved equal to a step function; any number of readers, writers and evictions interleave as a transition system, and
  every file operation may fail.
- **Image bytes** (`Exif.dfy`, `Jpeg.dfy`, `Png.dfy`, `WebP.dfy`, `StripMetadata.dfy`, over the generic `ChunkWalk.dfy`):
  the three container walkers as loops over byte positions, proved against "parse into chunks, keep some, write again".
- **Pixels** (`BoxBlur.dfy`, `FaceMask.dfy`, `FaceBlur.dfy`): the running-sum blur against the plain windowed mean, and
  the geometry of the soft face mask in exact arithmetic.
- **HLS playlists** (`Text.dfy`, `Urls.dfy`, `PlaylistRef.dfy`, `LinkedPlaylists.dfy`, `LinkedAgreement.dfy`,
  `StreamRoutes.dfy`, `PlayerRequests.dfy`, `Uploader.dfy`, `MasterPlaylist.dfy`, `Posters.dfy`, `UploadDir.dfy`,
  `PosterOrder.dfy`, `EndToEnd.dfy`, `MediaResource.dfy`, `PlaylistExamples.dfy`): printers and parsers over real strings, from the encoder's playlist to
  the request that resolves an opaque index again.
- **Grant revocation** (`GrantState.dfy`): the atomic scripts over the shared database, and safety over every run.
- **Manifest cache** (`ManifestCache.dfy`, `Lru.dfy`, `Weights.dfy`) and **mask-aware previews** (`PreviewKeys.dfy`,
  `Previews.dfy`, `Delivery.dfy`, `SizedPreviews.dfy`, `Modes.dfy`): from a policy's rows to the picture that is sent,
  over every run of redraws, requests and restarts.

Inputs from outside are parameters: outcomes of file operations, the identifiers that storage returns, random values
(assumed fresh), the square root (assumed exact), `url.Parse` (arbitrary where possible, otherwise assumed to leave plain
relative references as they are, which `Urls.ParsesRelative` proves of the one in `Urls.dfy`), the order of maps and of
an unstable sort, and the policy's answer.

## Where the code and its documentation differ

- A JPEG whose orientation block comes after an odd run of fill bytes loses its orientation: the reader steps over fill
  bytes in pairs, the stripper one at a time. `Jpeg.DeclaredOrientationSurvivesIff` gives the exact condition and
  `Jpeg.OddFillLosesOrientation` a concrete picture.
- "Anything that cannot be read is returned unchanged" does not hold for trailing bytes: up to seven bytes after the
  last WebP chunk and everything after a PNG's last chunk are dropped. `Png.UnchangedIff` and `WebP.UnchangedIff` say
  exactly which files come back unchanged; `Png.ByteBehindEndIsDropped` and `WebP.ByteBehindChunkIsDropped` are inputs.
- The WebP size field is right exactly when the chunks kept take less than 4 GiB (`WebP.SizeFieldIff`), and wrong for
  `WebP.LargePictureHasWrongSize`. The default upload limit keeps files far below that.
- "Keep the policy's stronger mask" has one exception: for a denied file with a full blur requested, the blur is chosen
  (`Delivery.PreviewTakesStricter` has the condition, `Delivery.DeniedFileIsBlurred` a request). The caller that could
  deny (`Resolve`) refuses first; `ResolveLink` does not.
- The segment route of the legacy addresses passes over tags with an empty value, which the indexed route refuses. Both
  see the same references exactly when there are none (`MediaResource.SameReferencesIff`); `#EXT-X-MAP:URI=""` is an
  input (`PlaylistExamples.EmptyMapHidesFile`).
- Extensions are decoded when a playlist is read and printed bare.  So a file may not be found by the reference that a
  player reads for it in the text it is sent: an escaped `#`, `?` or `%` is cut off or decoded again by the request, an
  escaped newline ends the line, an escaped quote ends the value in a tag, and escaped white space at the end of a line
  is trimmed. `PlayerRequests.ReadSegmentIsServed` has the exact condition on the extension, the kind of line and the
  suffix; `PlaylistExamples.EscapedMarksAreLost`, `PlaylistExamples.EscapedBlankIsLost` (newlines included) and
  `PlaylistExamples.EscapedQuoteIsCut` are inputs.
- For the same reason an escaped newline makes two lines of one (`LinkedAgreement.VariantKeepsLinesIff`,
  `PlaylistExamples.EscapedNewlineBreaksLine`).
- A tag in which a value begins and does not end counts as no reference when an index is resolved, but the rewriting
  refuses the whole playlist for it (`LinkedAgreement.VariantRewrittenIff`, `LinkedAgreement.MasterRewrittenIff`;
  `PlaylistExamples.OpenTagRefusesPlaylist` is an input).
- A replacement whose write to disk fails is reported as failed but is in force, and outlives a restart exactly when
  that write or a later one of any other key succeeds, or when the disk said the same before
  (`Previews.OutlivesRestartIff`, `Previews.InStepIff`). So a request whose preview could not be recorded fails, and the
  next one is answered with that preview (`Previews.FailedIsAnsweredNext`).
- Previews of two frames that agree to four decimals share one record, so the frame drawn may be the other one. Every
  answer is in its own frame exactly when frames with equal keys draw equally (`Previews.AnswersAreOwnIff`);
  `Previews.SecondFrameIsNotDrawn` is a run in which one is not.
- Poster files such as `blur/a.jpg` and `blur/a.JPG` give one variant and size twice (`UploadDir.OneSizeTwice`). Then
  the order that the unstable sort happens to give decides what a viewer is sent: for any sorted order it is the same
  file exactly when all posters of that size and mode are one file (`PosterOrder.OrderIsHiddenIff`), and
  `PosterOrder.SortDecides` has two sorted orders with different answers.

## Model

| member | source | states |
|---|---|---|
| FileCacheRuns.AccountsAreExact | internal/handler/file_cache.go:59-206 | at every moment of every interleaving: `bytes` is the sum of entry sizes, `bytes + active*objectLimit <= limit`, `active <= 8`, entries + active <= 4096, map and list hold the same keys, `active` counts the unfinished fills and `readers` the open hits of each entry |
| FileCacheRuns.StoredFilesAreWhole | internal/handler/file_cache.go:160-201 | whatever failed or was cancelled, a stored blob is the whole source file and its entry has its length |
| FileCacheRuns.HitKnowsLength | internal/handler/file_cache.go:208-222 | the length announced for an open hit is that of its file, even after that has vanished from the disk |
| FileCacheRuns.ReadsAreDirect | internal/handler/file_cache.go:99-201 | every reader, hit or not, has received a front part of the file, the whole at end-of-file, and may next receive exactly what a direct source could give |
| FileCacheRuns.NeverEvictedWhileRead | internal/handler/file_cache.go:70-97 | no step of any reader removes the entry of an open hit, and it stays the same entry |
| FileCacheRuns.CommittedThenHit | internal/handler/file_cache.go:99-182 | a file committed at some moment is a hit holding the whole file at every later moment of the run up to which no step has removed it |
| FileCacheRuns.StoredThenHit | internal/handler/file_cache.go:108-122 | at any moment of any run, opening a stored file is a hit on the whole file |
| FileCacheRuns.StoredFileLeavesOnlyBy | internal/handler/file_cache.go:70-122 | a stored file disappears only from under the cache, by an opening that cannot read it, or by making room for another, and in the last two only while nobody reads it |
| FileCacheRuns.StepKeeps | internal/handler/file_cache.go:59-206 | every enabled step keeps the invariant that ties counters, entries, blobs and tasks together |
| FileCacheRuns.WholeReadIsCommitted | internal/handler/file_cache.go:184-201 | while what is read is written, a fill of a file within the object limit goes on, and at end-of-file it ends with the whole file and the wish to keep it |
| FileCacheOrder.EntriesInOrderOfLastUse | internal/handler/file_cache.go:108-182 | at every moment of every interleaving the entries are in the order of the last hit or commit of each, latest first |
| FileCacheOrder.VictimsWereUsedLongestAgo | internal/handler/file_cache.go:70-140 | with deletions working, what a reservation evicts was last used before every entry without readers that it leaves |
| FileCache.EvictedIsOldestFree | internal/handler/file_cache.go:70-79 | with deletions working, eviction fails only if every entry is being read, and otherwise removes the last entry of the list without readers |
| FileCache.RoomMadeSound | internal/handler/file_cache.go:135-140 | the eviction loop ends, removes no entry with readers, and on success another writer's worst case fits |
| FileCache.ReservedSound | internal/handler/file_cache.go:127-147 | the reservation region keeps the budget and adds one writer exactly when granted |
| FileCache.FileCache.LookUp | internal/handler/file_cache.go:108-122 | the first region of `open`: a stored file that opens is found, its entry comes to the front with one more reader and the others keep their order; an entry whose file does not open is gone, unless it is being read or cannot be deleted |
| FileCache.FileCache.Reserve | internal/handler/file_cache.go:127-147 | the second region of `open`: with deletions working a writer is admitted exactly when its file is created, fewer than eight are at work and the entries being read leave room for another worst case |
| FileCache.FileCache.Evict | internal/handler/file_cache.go:70-79 | the scan from the back, with failing deletions passed over |
| FileCache.FileCache.Finish | internal/handler/file_cache.go:169-182 | the end of a fill: entry added only when complete, alone and renamed |
| FileCache.CacheHit.Close | internal/handler/file_cache.go:89-97 | a reader is given back once, however often the hit is closed |
| FileCache.CacheFill.Read | internal/handler/file_cache.go:184-201 | the caller gets the source's bytes and end unchanged; the partial file grows, or the fill ends with commit only at end-of-file |
| FileCache.CacheFill.Close | internal/handler/file_cache.go:203-206 | closing early ends the fill without commit |
| Jpeg.StripJpegMetadata | internal/imageproc/metadata.go:28-70 | equals start marker, optional orientation block and kept segments, or the input when it cannot be read |
| Jpeg.StripKeepsThePicture | internal/imageproc/metadata.go:35-68 | on success the output is the start marker, at most one orientation block, every segment and marker but APP1, APP13 and COM in order without fill bytes, and the identical tail |
| Jpeg.NoMetadataStays | internal/imageproc/metadata.go:42-68 | behind the orientation block a stripped file reads as the items of the input without markers 0xE1, 0xED and 0xFE, in order, and holds none of these |
| Jpeg.StripIdempotent | internal/imageproc/metadata.go:28-70 | stripping twice is stripping once, for every byte string |
| Jpeg.OrientationSurvives | internal/imageproc/metadata.go:28-34 | an orientation of 2 to 8 that is read is read again after stripping, and any other becomes 0 |
| Jpeg.DeclaredOrientationSurvivesIff | internal/imageproc/metadata.go:73-100 | the orientation that the segments declare survives exactly when no odd run of fill bytes comes before it |
| Jpeg.OddFillLosesOrientation | internal/imageproc/metadata.go:83-86 | a picture whose declared orientation is lost |
| Jpeg.ReadJpegOrientation | internal/imageproc/metadata.go:73-100 | the loop over markers equals the recursive reading |
| Exif.TiffRoundTrip | internal/imageproc/metadata.go:132-144 | the orientation written in the minimal block is the one read back |
| Exif.TiffOrientationIsFirstEntry | internal/imageproc/metadata.go:102-130 | the value read is that of the first entry with the orientation tag, in either byte order, and 0 if none comes before the data ends |
| Exif.ReadTiffOrientation | internal/imageproc/metadata.go:119-129 | the loop over entries equals the recursive reading, with all accesses in bounds |
| Png.StripPngMetadata | internal/imageproc/metadata.go:146-168 | the loop equals parsing, dropping and writing again, or gives the input back |
| Png.StripKeepsThePicture | internal/imageproc/metadata.go:150-166 | the output is the signature and exactly the chunks that are not metadata, byte for byte in order up to the last |
| Png.NoMetadataStays | internal/imageproc/metadata.go:155-163 | a stripped file reads as the chunks of the input without those named eXIf, tEXt, zTXt, iTXt and tIME, in order |
| Png.StripIdempotent | internal/imageproc/metadata.go:146-168 | stripping twice is stripping once |
| Png.UnchangedIff | internal/imageproc/metadata.go:146-168 | the very files returned as they were: the unreadable, and those without metadata and without bytes behind IEND |
| Png.ByteBehindEndIsDropped | internal/imageproc/metadata.go:160-166 | a readable file whose last byte is dropped |
| WebP.StripWebPMetadata | internal/imageproc/metadata.go:170-201 | the loop equals parsing, dropping, clearing and writing again with a new size field |
| WebP.StripKeepsThePicture | internal/imageproc/metadata.go:170-201 | the chunks of the output are those of the input without metadata, in order, with two flag bits cleared in VP8X only |
| WebP.NoMetadataStays | internal/imageproc/metadata.go:186-196 | a stripped file reads as the chunks of the input without those named EXIF and XMP, in order, with both flags of VP8X cleared |
| WebP.ClearFlagsBits | internal/imageproc/metadata.go:188-193 | clearing the flags changes those two bits and no other |
| WebP.SizeFieldIff | internal/imageproc/metadata.go:199-199 | the size field is right exactly when the chunks kept of the input take less than 4 GiB, and always for an input below 4 GiB |
| WebP.StripShrinks | internal/imageproc/metadata.go:170-201 | no file grows, also where the last odd chunk lacks its padding |
| WebP.LargePictureHasWrongSize | internal/imageproc/metadata.go:199-199 | a picture whose size field is wrong |
| WebP.UnchangedIff | internal/imageproc/metadata.go:170-201 | the very files returned as they were: the unreadable, and those without metadata, flags for it or bytes behind the last chunk, whose size field was right |
| WebP.ByteBehindChunkIsDropped | internal/imageproc/metadata.go:174-183 | a readable picture that loses the byte behind its chunk |
| WebP.StripIdempotent | internal/imageproc/metadata.go:170-201 | stripping twice is stripping once |
| WebP.InputIsChunks | internal/imageproc/metadata.go:174-183 | a readable input is its header, its chunks and fewer than eight bytes more |
| StripMetadata.StrippedTwice | internal/imageproc/metadata.go:16-26 | idempotence across formats: stripped output is recognised as the same format |
| StripMetadata.Strip | internal/imageproc/metadata.go:16-26 | each format goes by the first bytes of the file to its own stripping |
| BoxBlur.BoxBlurHorizontal | internal/imageproc/privacy.go:334-371 | the running sums give the alpha-weighted mean over the clipped window at every pixel |
| BoxBlur.BoxBlurVertical | internal/imageproc/privacy.go:373-410 | the same along columns |
| BoxBlur.BlurNRGBA | internal/imageproc/privacy.go:322-332 | for a positive radius three passes, each giving every pixel the blur along its column of the blurs along the rows; a copy for any other |
| BoxBlur.BlurredMeaning | internal/imageproc/privacy.go:412-428 | the blur along a line is, over the pixels at most the radius away, the mean of the colours weighted by alpha and the mean of alpha; clear where all are transparent |
| BoxBlur.VerticalIsTransposedHorizontal | internal/imageproc/privacy.go:334-410 | the vertical pass is the horizontal one on the transposed image |
| BoxBlur.BlurredBetween | internal/imageproc/privacy.go:412-428 | each channel lies between the least and the most over the window's pixels that are not transparent |
| BoxBlur.NoClamp | internal/imageproc/privacy.go:417-428 | `min(255, ..)` and the conversion to a byte never change a value |
| BoxBlur.Slide | internal/imageproc/privacy.go:348-368 | leaving and entering pixels turn one window's sums into the next one's |
| BoxBlur.BlurReach | internal/imageproc/privacy.go:322-332 | a blurred pixel depends only on pixels within three radii along each axis |
| FaceMask.RectanglesCoverEllipse | internal/imageproc/privacy.go:251-274 | every image pixel inside the outer ellipse lies in the work area and in the mask's rectangle |
| FaceMask.WindowInWorkArea | internal/imageproc/privacy.go:250-255 | the first blur window of every masked pixel lies in the work area |
| FaceMask.RadiusMeaning | internal/imageproc/privacy.go:249-249 | the radius is a fifth of the shorter side, and never less than the minimum |
| FaceMask.WeightFalls | internal/imageproc/privacy.go:303-312 | the weight never grows with the distance |
| FaceMask.MaskedMeaning | internal/imageproc/privacy.go:275-317 | full blur in the solid part, unchanged beyond the fade, between the two in the band |
| FaceBlur.ApplySoftEllipse | internal/imageproc/privacy.go:266-298 | the loops write the mask in the clipped area and nothing elsewhere |
| FaceBlur.BlurFaceRegions | internal/imageproc/privacy.go:243-262 | in the result every pixel shows the last face that does not miss it, drawn over the image with the faces before: the full blur of that image in the solid part, between that and the pixel before in the band; and each step from face to face does so too |
| FaceBlur.FaceCovered | internal/imageproc/privacy.go:244-260 | every image pixel inside a face's outer ellipse lies in that face's work area, which lies in the image |
| FaceBlur.FaceInside | internal/imageproc/privacy.go:243-317 | inside the outer ellipse a pixel lies between its old value and the full blur of that step, and in the solid part is that blur |
| FaceBlur.FaceOutside | internal/imageproc/privacy.go:266-298 | outside the outer ellipse of a face its step changes nothing |
| FaceBlur.OutsideUnchanged | internal/imageproc/privacy.go:243-262 | a pixel outside every face's outer ellipse is unchanged at the end |
| LinkedPlaylists.RewriteLinkedVariantPlaylist | internal/handler/video_handler.go:435-471 | the loop over lines equals the recursive rewriting, refusals included |
| LinkedPlaylists.RewriteLinkedMasterPlaylist | internal/handler/video_handler.go:407-433 | the same for a master |
| LinkedPlaylists.LinkedVariantAssetCid | internal/handler/video_handler.go:492-519 | gives the wanted reference unless it or one before it is refused |
| LinkedPlaylists.LinkedMasterPlaylistCid | internal/handler/video_handler.go:473-490 | the same for a master's playlists |
| LinkedPlaylists.NthIsThere | internal/handler/video_handler.go:492-519 | an index resolves exactly when it is below the count and no reference up to it is refused |
| LinkedAgreement.VariantFollows | internal/handler/video_handler.go:435-519 | editor and resolver, though they look at lines differently, take the same lines as references, wherever the editor does not refuse |
| LinkedAgreement.VariantRewrittenIff | internal/handler/video_handler.go:435-471 | a variant is rewritten exactly when every reference in it is accepted and no tag has an unclosed value |
| LinkedAgreement.MasterRewrittenIff | internal/handler/video_handler.go:407-433 | the same for a master |
| LinkedAgreement.VariantLineAgrees | internal/handler/video_handler.go:435-519 | after a successful rewriting, lines without a reference are unchanged and the line of the k-th carries index k, which resolves to what the line named |
| LinkedAgreement.VariantIndicesAreAll | internal/handler/video_handler.go:435-519 | the indices are 0 to n-1 without gaps, each on exactly one line, and none beyond resolves |
| LinkedAgreement.MasterLineAgrees | internal/handler/video_handler.go:407-490 | each playlist line of a master carries the index that resolves to it; a tag with a poster changes in that address only, and all other lines stay |
| LinkedAgreement.TagReadsBack | internal/handler/video_handler.go:535-562 | in a tag, the printed reference is what a player reads exactly when it holds no quote |
| StreamRoutes.SegmentRequested | internal/handler/video_handler.go:278-308 | a segment reference with any extension, resolved against its playlist and decoded, is routed to that playlist, index and extension when nothing in the extension is cut off or decoded, and otherwise nowhere or by a shorter extension |
| StreamRoutes.PlaylistRequested | internal/handler/video_handler.go:271-277 | a printed playlist reference is routed to that index |
| StreamRoutes.PrintedSegmentIsServed | internal/handler/video_handler.go:348-370 | a request by a segment reference just as it was printed gets the very file referenced, exactly when it is not withdrawn and its extension holds no fragment mark, query mark or percent sign, and never another file |
| PlayerRequests.ReadSegmentIsServed | internal/handler/video_handler.go:348-471 | what a player reads in the rewritten text where the line of the k-th reference begins gets it the very file referenced, exactly when that is not withdrawn, its extension holds no mark that a request cuts at or decodes and no newline, in a tag no quote, and on a line of its own without a suffix no white space at the end; and never another file |
| PlayerRequests.TextReadsAsPrinted | internal/handler/video_handler.go:435-471 | where all references are read whole, a player reads in the text exactly those printed, in order |
| LinkedAgreement.VariantKeepsLinesIff | internal/handler/video_handler.go:435-471 | a rewritten variant keeps its number of lines exactly when no extension in it holds a newline and, where a reference is printed, neither does the suffix |
| LinkedAgreement.MasterKeepsLinesIff | internal/handler/video_handler.go:407-433 | a rewritten master keeps its number of lines exactly when the suffix holds no newline or nothing is printed |
| PlaylistExamples.EscapedMarksAreLost | internal/handler/video_handler.go:348-471 | stored playlists, with an escaped fragment mark, query mark or percent sign, whose file is not found by what a player reads in the text it is sent |
| PlaylistExamples.EscapedBlankIsLost | internal/handler/video_handler.go:348-471 | the same with escaped white space at the end of the line |
| PlaylistExamples.EscapedNewlineBreaksLine | internal/handler/video_handler.go:435-471 | a stored playlist that gets one more line |
| PlaylistExamples.EscapedQuoteIsCut | internal/handler/video_handler.go:549-562 | a stored map tag whose file is not found by what a player reads in the tag it is sent |
| PlaylistExamples.OpenTagRefusesPlaylist | internal/handler/video_handler.go:435-519 | a stored playlist with an unclosed value, whose file is found by its index though the playlist is not rewritten |
| PlaylistExamples.EmptyMapHidesFile | internal/handler/media_resource.go:57-63 | a playlist whose file the legacy route finds and the indexed one does not |
| PlaylistRef.PrintedInDirectory | internal/handler/video_handler.go:521-533 | identifier and extension of a printed reference are read back |
| PlaylistRef.TrimKeepsUri | internal/handler/video_handler.go:535-547 | trimming a line never changes the value found in it |
| PlaylistRef.ReplacedReadsBack | internal/handler/video_handler.go:549-562 | replacing a value keeps the rest of the line, and a new value without a quote reads back |
| Text.SplitOfJoin | internal/handler/video_handler.go:408-432 | splitting undoes joining of parts without the separator |
| Text.AtoiOfDigits | internal/handler/video_handler.go:296-308 | a printed index is read back |
| Uploader.RewriteVariantPlaylist | internal/video/uploader.go:144-176 | the loop equals the line-by-line rewriting |
| Uploader.UploadedLineMeaning | internal/video/uploader.go:157-173 | a map tag names the stored initial segment, a known segment line the stored segment, and every other line stays |
| Uploader.UploadedIndexResolves | internal/video/uploader.go:144-176 | if every reference is a known segment or map with a valid identifier, index k of the uploaded playlist resolves to the file and extension of the k-th reference, and no further index resolves |
| EndToEnd.UploadedRewrittenIff | internal/handler/video_handler.go:435-471 | an uploaded playlist can be rewritten exactly when the encoder left no tag unclosed |
| EndToEnd.EncoderToPlayer | internal/handler/video_handler.go:348-471 | for every quality, from the encoder's playlist to a player: upload and rewriting succeed, the references read in the text that is sent are exactly the opaque ones printed for the encoder's, in order, and a request for any of them gets the file uploaded for it, unless that is withdrawn |
| EndToEnd.PosterToViewer | internal/handler/media_resource.go:89-134 | from poster files through the printed master: in a protected mode the viewer of an original gets the file drawn for that mode at the same size |
| MasterPlaylist.BuildMasterPlaylist | internal/video/uploader.go:179-215 | the text is the header, a line per poster and two lines per quality there is |
| MasterPlaylist.QualityLinesInPairs | internal/video/uploader.go:191-212 | the k-th playlist there is stands behind the announcement of its own quality with bandwidth, resolution and codec |
| MasterPlaylist.PosterReadsBack | internal/handler/media_resource.go:92-119 | a printed poster line is parsed to the same poster |
| Posters.VideoPosterCid | internal/handler/media_resource.go:89-134 | parsing and the nested selection loops equal their recursive form |
| Posters.MalformedRefusesAll | internal/handler/media_resource.go:92-119 | one poster line without a picture, with one that is no `.jpg`, or without a size, and no poster is found |
| Posters.PrintedMasterPlaylists | internal/video/uploader.go:191-212 | index i of a printed master is the i-th quality there is, low before medium before high, and no further index resolves |
| Posters.PrintedMasterPosters | internal/video/uploader.go:183-189 | the posters parsed from a printed master are those printed, in any order they were |
| Posters.ChosenPoster | internal/handler/media_resource.go:120-134 | for the one original requested: that poster in original mode, and in a protected mode the first poster of the same size for that mode, or none |
| Posters.FirstOfOne | internal/handler/media_resource.go:126-134 | where all posters of a size and mode are one file, their order makes no difference |
| PosterOrder.OrderIsHiddenIff | internal/video/uploader.go:223-242 | whichever sorted list of the posters is printed, the viewer of an original in a protected mode is sent the same file, exactly when all posters of that size and mode are one file |
| PosterOrder.SortDecides | internal/video/uploader.go:223-242 | three poster files and two sorted lists of their posters for which the viewer is sent different files |
| UploadDir.UploadAll | internal/video/uploader.go:42-141 | counted with repetition, the tracked list is the files that are not playlists, the playlists stored anew and the master, for any order of maps and colliding identifiers; and an upload fails only where there are no files, or where a file, a playlist or the master cannot be read or stored |
| UploadDir.PlaylistListed | internal/video/uploader.go:92-109 | replacing the first occurrence keeps the count exact even where another file has the same identifier |
| UploadDir.ReplaceInSlice | internal/video/uploader.go:294-302 | the first occurrence is replaced, nothing else |
| UploadDir.CollectPosters | internal/video/uploader.go:223-242 | the posters, counted with repetition, are those that the files give, in the order of their area, whatever order the map gives |
| UploadDir.OneSizeTwice | internal/video/uploader.go:223-242 | two files that give one variant and size |
| UploadDir.PlaylistNamesAreTracked | internal/video/uploader.go:91-109 | every identifier that an uploaded playlist names is in the list deleted as a group |
| UploadDir.MasterNamesAreTracked | internal/handler/video_handler.go:161-162 | so is every playlist and poster that the master names |
| MediaResource.ValidateMediaResource | internal/handler/media_resource.go:13-74 | the nested scan with early exits equals its recursive form |
| MediaResource.GrantedIff | internal/handler/media_resource.go:23-74 | on a segment route in original mode exactly the source, its listed posters and what the scan arrives at are granted |
| MediaResource.ScanGrants | internal/handler/media_resource.go:41-73 | the scan grants exactly when one of the first 32 playlists is the file or holds it and none before it stops the scan |
| MediaResource.ScanFailsIff | internal/handler/media_resource.go:41-73 | the scan fails, rather than denies, exactly when it arrives at a playlist that cannot be read |
| MediaResource.ReachableIsGranted | internal/handler/media_resource.go:39-74 | whatever the indexed route reaches below index 32 is granted when the playlists before are withdrawn or readable and well formed |
| MediaResource.ProtectedSeesPostersOnly | internal/handler/media_resource.go:33-38 | in a protected mode only posters are granted |
| MediaResource.SameReferencesIff | internal/handler/media_resource.go:56-67 | both routes see the same references exactly when no tag has an empty value |
| MediaResource.EmptyValueDiffers | internal/handler/media_resource.go:57-63 | in front of a file, such a tag hides it from the indexed route and not from the legacy one |
| GrantState.State.Snapshot | internal/mediagrant/state.go:74-102 | epoch, versions and guards as of one moment, and an error without an epoch |
| GrantState.State.Check | internal/mediagrant/state.go:112-122 | accepts exactly unblocked resources with the claimed epoch and versions |
| GrantState.State.Begin | internal/mediagrant/state.go:128-168 | succeeds exactly when there is an epoch and no guard, and then sets guard and version and nothing else |
| GrantState.State.Finish | internal/mediagrant/state.go:135-167 | succeeds exactly with the guard it holds, and then sets the version, drops the guard and nothing else |
| GrantState.State.Revoke | internal/mediagrant/state.go:173-183 | whenever there is an epoch, sets the version and the mark of deletion and nothing else |
| GrantState.State.Initialize | internal/mediagrant/state.go:57-70 | afterwards there is an epoch, the one there was if there was one; refuses where entries may be evicted |
| GrantState.KeysAreDistinct | internal/mediagrant/state.go:84-88 | the stored names of epoch, versions and guards never collide |
| GrantState.AcceptedIffUndisturbed | internal/mediagrant/state.go:74-183 | over every run, claims from an earlier snapshot are accepted exactly when it was not blocked and since then the epoch stayed and nobody touched either resource |
| GrantState.UntouchedIsUndisturbed | internal/mediagrant/state.go:128-183 | where nobody touched them, epoch, versions and guards are as they were |
| GrantState.BlockedIsNeverAccepted | internal/mediagrant/state.go:118-120 | versions read while a guard was up are never accepted, in any later state |
| GrantState.OneWriterAtATime | internal/mediagrant/state.go:128-168 | between two successful Begins on a resource the first writer has finished |
| GrantState.FinishesOnce | internal/mediagrant/state.go:135-139 | a writer finishes successfully at most once, whatever is lost in between |
| GrantState.RevokedForGood | internal/mediagrant/state.go:170-183 | after a revocation under any epoch no claims on the resource are accepted and no writer gets in, until the database is lost |
| GrantState.OthersRest | internal/mediagrant/state.go:124-139 | work on one resource leaves every other resource and the epoch alone |
| GrantState.LosingOneVersionRevives | internal/mediagrant/state.go:16-19 | why nothing may be evicted: losing one version key makes old claims valid again |
| ManifestCache.ManifestCache.Get | internal/handler/manifest_cache.go:59-68 | finds exactly what is listed, moves it to the front with the others in order, and keeps the invariant |
| ManifestCache.ManifestCache.Put | internal/handler/manifest_cache.go:70-90 | what fits and is new goes in front of as many of the others as fit beside it, taken from the front; anything else changes nothing |
| ManifestCache.ManifestCost | internal/handler/manifest_cache.go:45-57 | the cost does not depend on the order in which maps are visited |
| ManifestCache.CostMeaning | internal/handler/manifest_cache.go:45-57 | the cost is that of the own strings, and each entry of the maps adds its key, its value and a fixed part |
| ManifestCache.Load | internal/handler/manifest_cache.go:92-131 | a loaded manifest says what the source says, in maps of the caller's own, and is listed afterwards if it is not too large |
| ManifestCache.LoadWriteLoad | internal/handler/manifest_cache.go:39-43 | whatever a caller writes into its maps, the next load is unaffected |
| ManifestCache.CachedInOrderOfLastUse | internal/handler/manifest_cache.go:59-90 | after any calls: within the byte budget and 1024 entries, each key once, in the order of last use |
| ManifestCache.RunsAreHistories | internal/handler/manifest_cache.go:59-90 | any run of get and put is a history of hits and additions on the list |
| Lru.KeptIsLongest | internal/handler/manifest_cache.go:81-87 | eviction leaves the longest recent part that makes room |
| Lru.VictimsAreLeastRecentlyUsed | internal/handler/manifest_cache.go:81-87 | every victim was used before everything that stays |
| PreviewKeys.BuildPreviewKey | internal/handler/fit_preview.go:51-62 | the key built by appending is the parts joined by slashes |
| PreviewKeys.KeysAreInjective | internal/handler/fit_preview.go:49-62 | equal keys mean the same bundle, size, mode, policy, quality, mask, redrawn mask and four-decimal frame |
| PreviewKeys.KeysAreNoMasks | internal/store/variant_overrides.go:25-30 | no preview key is the key of a redrawn mask |
| PreviewKeys.MaskKeysAreInjective | internal/store/variant_overrides.go:25-30 | override keys tell bundles and variants apart |
| Previews.EnsureConfiguredPreview | internal/handler/fit_preview.go:31-111 | the answer is what is on record for the mask in force now at the configured size, or what is drawn and recorded now; no other record changes, and a failed write leaves the record in force |
| Previews.ConfiguredPreview | internal/handler/fit_preview.go:16-26 | the first usable size of that name, and none exactly when previews are off or no size is usable |
| Previews.PreviewFollowsMask | internal/handler/fit_preview.go:39-65 | at every moment of every run of redraws, requests and restarts, from whatever an earlier run left, the answer to a request is drawn at its size, in a frame with the same key, from the file that stands in for the mask then, else from the mask of the bundle, else from the original |
| Previews.RequestIsStep | internal/handler/fit_preview.go:66-106 | what a request does to the records is nothing or a step of such a run |
| Previews.AnsweredIff | internal/handler/fit_preview.go:60-106 | a request is answered exactly when its preview is on record or fetching, drawing, adding and recording succeed for a source of at most 100 MiB |
| Previews.AnswersAreOwnIff | internal/handler/fit_preview.go:58-66 | over every run, each answer is in the frame of its own request exactly when frames with equal keys draw equally |
| Previews.SecondGetsFirst | internal/handler/fit_preview.go:63-66 | a request is answered with what was drawn before for another frame with its key |
| Previews.SecondFrameIsNotDrawn | internal/handler/fit_preview.go:63-66 | two frames and a run in which the second is sent the picture of the first |
| Previews.InStepIff | internal/store/variant_overrides.go:63-88 | after a replacement memory and disk agree exactly when the write succeeded, or the disk had that value for the key and agreed on all others |
| Previews.OutlivesRestartIff | internal/store/variant_overrides.go:63-88 | a replacement outlives a restart exactly when its own write or that of any later replacement of other keys succeeded, or the disk said the same before |
| Previews.FailedIsAnsweredNext | internal/handler/fit_preview.go:66-106 | a request whose preview is drawn but not written to disk fails, and the next one is sent that preview |
| Previews.RedrawChangesKey | internal/handler/fit_preview.go:49-57 | after a redraw the old preview is no longer looked up |
| Previews.VariantOverrides.Set | internal/store/variant_overrides.go:63-88 | memory changes even where writing fails, and the disk only where it succeeds |
| Previews.VariantOverrides.Get | internal/store/variant_overrides.go:51-59 | the replacement on record, an empty one counting as none |
| Delivery.Resolve | internal/handler/media_access.go:204-224 | the mode is the strictest of the rows, and an error exactly when a row names none |
| Delivery.OrderDoesNotMatter | internal/handler/media_access.go:204-224 | the mode depends on which rows there are, not on their order |
| Delivery.Choose | internal/handler/handler.go:532-629 | each kind of answer is given exactly where it is due: a preview is at the size asked for or else the fallback and cut exactly where a frame is to be shown, a file is the variant asked for or that of the mode |
| Delivery.PreviewTakesStricter | internal/handler/handler.go:579-585 | a preview takes the stricter of policy and requested mask, except exactly where the policy denies and a full blur is requested |
| Delivery.DeniedFileIsBlurred | internal/handler/handler.go:579-585 | a request in that case |
| Delivery.NeverLessThanPolicy | internal/handler/handler.go:532-629 | with that exception nothing less hidden than the policy's mode is served, on any path |
| Delivery.RequestedMaskIsKept | internal/handler/handler.go:548-561 | a requested mask is never weakened |
| Delivery.CacheKeysAreInjective | internal/handler/handler.go:738-745 | cached files of different bundles or paths have different keys |
| SizedPreviews.ServeSized | internal/handler/handler.go:532-629 | from rows to picture: a picture sent is drawn at a configured size, in the frame that the decision names, from what stands for the stricter of the strictest row and the requested mask (the denied full blur excepted) |
| SizedPreviews.RunsSendWhatTheyMay | internal/handler/fit_preview.go:31-111 | the same at every moment of every run, and the request is itself nothing or a step of the run |

## Left out

- FileCache.FileCache.constructor: clearing the directory at startup and a limit of zero (no cache) are not modelled; keys stand for their SHA-256 digests.
- FileCacheRuns.ReadsAreDirect: sources are immutable, a reader stops after an error or end-of-file, and an entry file may vanish but not change its contents.
- ManifestCache.Load: coalescing of concurrent fetches and the retry after cancellation are not modelled, because they belong to a library; a nil cache only forwards the fetch.
- FaceBlur.BlurFaceRegions: arithmetic is exact, so rounding of 64-bit floats is not modelled; images start at the origin; face detection and enlarging a detected face are left out.
- GrantState.State.Check: how asset and file names are derived from claims (digests, canonical identifiers) is not modelled; names are arbitrary strings.
- StreamRoutes.SegmentRequested: of resolving a reference dot-dot, slashes, fragment, query and escapes are modelled; characters that a client would escape itself are taken to arrive as they were read.
- PlayerRequests.ReadSegmentIsServed: a player is taken to find lines and quoted values as the service does, in any tag; the suffix is an encoded query, as the service builds it.
- PlaylistRef.PrintedInDirectory: `url.Parse` is a parameter that leaves references of letters, digits, dots, dashes, underscores and slashes as they are; the examples use the one in `Urls.dfy`, which knows relative references only and decodes escapes to single characters.
- Uploader.UploadedIndexResolves: reading the encoder's files and joining paths are parameters.
- UploadDir.UploadAll: the maps of poster identifiers in the result are not modelled; the posters printed in the master are.
- MediaResource.ValidateMediaResource: `sameMediaCID` is an arbitrary relation, since decoding identifiers is a library's.
- Previews.EnsureConfiguredPreview: drawing, storing and fetching are functions of their inputs that may fail; concurrent requests for one key are the interleaved steps of `Previews.PreviewFollowsMask`, frames are exact numbers, and the replication of a stored preview is left out.
- UploadDir.CollectPosters: the area of a size is a parameter, and so is the order that the unstable sort gives equal ones.
- Delivery.Resolve: source, poster and frame taken from the rows depend on their order and are left out; so is reading a row's JSON.
- HTTP handling, headers and languages, configuration, middleware and the processing queue.
- Storage, database and encoder clients, image decoding and encoding, resizing and cropping arithmetic.
- Encryption and encoding of grants; only the claims that `Check` compares are modelled.
- Upload budgets, unpinning and garbage collection, cluster fan-out: they would add easier members.
