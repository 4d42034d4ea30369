# Photo sharing: thumbnail geometry, likes and image records

This project models the three parts of the photo-sharing application that have exact rules, and proves properties about them.

- **`resizeImage`** (src/UploadBox.tsx) runs in the browser. It bounds the longer side of a dropped image to 800 pixels without upscaling. It sizes a square canvas to the shorter scaled side and computes centring offsets. It draws one source rectangle onto the canvas and encodes the canvas in the file's media type. Module `Geometry` holds the arithmetic as pure functions. Module `UploadBox` holds the canvas as a class and `resizeImage` as a method. Three browser facilities may fail, and their outcomes are parameters of the method (oracles): decoding (`onload`/`onerror`), `getContext('2d')` and `toBlob`.
- **Likes** (convex/likes.ts). The `likes` table is a map from row id to a (user, image) pair. The database invariant allows at most one row per pair, as the `by_user_and_image` index with `.unique()` expects. `toggleLike` is a method that deletes or inserts one row. `isLiked` is a function. Module `Likes`.
- **Image records** (convex/images.ts). The `images` table is a sequence of records in creation order. File storage is a set of live storage ids. `processAndStoreImage` and `deleteImage` are methods on the database. Each checks authentication, and `deleteImage` also checks ownership. `listImages` and `listMyImages` are functions that return records newest first, each with its like count. Module `Images`; the tables and the database class are in module `Schema`.

The caller's identity (`getAuthUserId`) is an `Option<UserId>` parameter. Document ids come from a counter in the database, so a new id is always unused. `Math.round(a / b)` on non-negative pixel values is exact round-half-up: `(2a + b) div (2b)`. Crop offsets are Dafny `real`s (exact rationals), because they can be halves.

Four facts about the code that its geometry makes easy to miss:
- The square side is the shorter *scaled* side: for a 1600 x 800 image it is 400, not 800.
- The draw does not downscale (see Findings).
- The crop is centred in the sense `2 * offset + size == dimension` on each axis; one offset plus the size reaches the dimension only on the axis whose offset is 0.
- A square side of 0 (a 1 x 2000 image, or a decoded side of 0) leaves the canvas without pixels, and `toBlob` then hands its callback a null blob, so the promise rejects with "Could not create blob".

## Model

| member | source | states |
|---|---|---|
| `Geometry.RoundDiv` | src/UploadBox.tsx:138-143 | the result r is the nearest integer to a/b with halves rounded up: 2rb <= 2a + b < 2rb + 2b |
| `Geometry.RoundDivUnique` | src/UploadBox.tsx:138-143 | any integer in that rounding bracket equals `RoundDiv`, so the bracket specifies `Math.round` completely |
| `Geometry.Scaled` | src/UploadBox.tsx:134-146 | both scaled sides are at most 800, and neither scaled side exceeds its natural side (no upscaling) |
| `Geometry.ComputePlan` | src/UploadBox.tsx:134-161 | the square side is the minimum of the scaled sides and at most 800; both offsets are >= 0 and at least one is 0; on each axis 2 * offset + size equals the scaled side (centred crop) |
| `Geometry.NoUpscale` | src/UploadBox.tsx:136-146 | if both sides are at most 800 the scaled dimensions equal the natural ones and the square side is the shorter natural side |
| `Geometry.LandscapeOverBound` | src/UploadBox.tsx:136-140 | for W > H and W > 800 the scaled width is exactly 800 and the scaled height is H*800/W rounded half up |
| `Geometry.PortraitOverBound` | src/UploadBox.tsx:141-146 | for H >= W and H > 800 the scaled height is exactly 800 and the scaled width is W*800/H rounded half up |
| `Geometry.SquareBranchesAgree` | src/UploadBox.tsx:136-146 | a square input, which takes the height branch because the test is strictly `width > height`, gets the same result from either branch |
| `Geometry.PlanIdempotent` | src/UploadBox.tsx:134-149 | recomputing on the size x size output gives the same size, no scaling and zero offsets |
| `Geometry.ZeroSizeExample` | src/UploadBox.tsx:143-149 | a 1 x 2000 image rounds its width to 0, so the square side can be 0 |
| `Geometry.DrawSourceRect` | src/UploadBox.tsx:160-163 | the rectangle passed to `drawImage` has the square side on both sides and lies inside the natural image |
| `Geometry.DrawSourceRectOffCentre` | src/UploadBox.tsx:160-163 | for a 1600 x 800 image the drawn natural rectangle is (200, 0, 400, 400): not centred, and smaller than the image's largest square |
| `Geometry.CentredSourceRect` | src/UploadBox.tsx:160-163 | corrected rectangle: the largest square of the natural image, centred on both axes, at least as large as the canvas side |
| `Geometry.DrawSourceRectCentredWhenUnscaled` | src/UploadBox.tsx:136-163 | when nothing is downscaled, the rectangle as written equals the corrected one |
| `Geometry.DrawSourceRectOffWhenScaled` | src/UploadBox.tsx:136-163 | when a side is downscaled, the rectangle as written differs from the corrected one |
| `UploadBox.Canvas.constructor` | src/UploadBox.tsx:130 | a new canvas is blank and 300 x 150 |
| `UploadBox.Canvas.SetWidth` | src/UploadBox.tsx:150 | setting the width resizes and clears the canvas, keeping its height |
| `UploadBox.Canvas.SetHeight` | src/UploadBox.tsx:151 | setting the height resizes and clears the canvas, keeping its width |
| `UploadBox.Canvas.DrawImage` | src/UploadBox.tsx:163 | a draw appends exactly that call and keeps the canvas size |
| `UploadBox.ResizeImage` | src/UploadBox.tsx:125-175 | decode failure rejects with "Could not load image", a missing context with "Could not get canvas context", a null blob with "Could not create blob"; a square side of 0 rejects with "Could not create blob" as well; it succeeds exactly when all three steps succeed and the side is positive; then the blob holds the encoder's bytes in `file.type`, the canvas is size x size (between 1 and 800) and holds exactly one draw of `DrawSourceRect` onto (0, 0, size, size) |
| `Schema.Database.constructor` | convex/schema.ts:6-17 | an empty database satisfies the invariant: creation order, fresh ids, one like row per pair |
| `Likes.Toggled` | convex/likes.ts:16-23 | toggling flips exactly the given pair and keeps every other pair |
| `Likes.ToggledTwice` | convex/likes.ts:16-23 | toggling the same pair twice restores the original set |
| `Likes.IsLiked` | convex/likes.ts:27-40 | false when no one is signed in; otherwise true exactly when the caller's pair for the image is liked |
| `Likes.FindLike` | convex/likes.ts:11-14 | the lookup finds a row exactly when the pair is liked, and the row it finds is the only one for that pair |
| `Likes.RemoveRowValues` | convex/likes.ts:17 | deleting a row removes its pair from the liked pairs and keeps one row per pair |
| `Likes.InsertRowValues` | convex/likes.ts:19-22 | inserting a row under a new id adds exactly its pair |
| `Likes.LikeCountInsert` | convex/likes.ts:19-22 | an inserted row raises its image's like count by one and no other count |
| `Likes.LikeCountRemove` | convex/likes.ts:17 | a deleted row lowers its image's like count by one and no other count |
| `Likes.LikeCountIsLikers` | convex/images.ts:39-43 | with one row per pair, an image's like count is the number of distinct users who liked it |
| `Likes.ToggleLike` | convex/likes.ts:5-25 | with no caller it throws "Please log in" and changes nothing; otherwise it deletes the pair's one row or inserts it under a new id, so the liked pairs become `Toggled`, `isLiked` flips, the image's count moves by one and no other count moves; the invariant, images and storage are kept |
| `Images.GenerateUploadUrl` | convex/images.ts:5-12 | a signed-in caller gets the issued URL; anyone else gets "Please log in"; it takes no table, so it changes none |
| `Images.IndexOf` | convex/images.ts:90 | finds the first position holding the id, or reports that no record has it |
| `Images.Lookup` | convex/images.ts:90 | `ctx.db.get` returns a record of the table with that id, or none when no record has it |
| `Images.NewestFirst` | convex/images.ts:34 | the records in reverse creation order |
| `Images.WithLikeCounts` | convex/images.ts:37-49 | each record in order, paired with the number of like rows that reference it |
| `Images.OwnedBy` | convex/images.ts:60-64 | exactly the records of the given uploader, keeping creation order |
| `Images.ListImages` | convex/images.ts:31-52 | every image, position k holding the k-th newest, with its like count |
| `Images.ListMyImages` | convex/images.ts:54-82 | [] with no caller; otherwise only the caller's images, each with its like count, and every one of them |
| `Images.MyImagesAreFeedFiltered` | convex/images.ts:54-82 | a signed-in caller's list equals `listImages` restricted to the caller's images, in the same order |
| `Images.FeedIdsDescending` | convex/images.ts:34 | along `listImages`, ids strictly decrease (newest first) |
| `Images.MyImagesIdsDescending` | convex/images.ts:60-64 | along `listMyImages`, ids strictly decrease (newest first) |
| `Images.FeedSnoc` | convex/images.ts:23-34 | a newly inserted record heads the feed, followed by the old feed |
| `Images.ProcessAndStoreImage` | convex/images.ts:14-29 | with no caller it throws "Please log in" and changes nothing; otherwise it appends one record with a new id, the given storage id and caption and the caller as owner; the feed gains exactly that head; likes and storage are unchanged |
| `Images.RemoveAtKeepsOthers` | convex/images.ts:96 | removing one position keeps creation order and removes exactly the records with that id |
| `Images.DeleteImage` | convex/images.ts:84-98 | with no caller it throws "Please log in"; for a missing image or another user's image it throws "Not authorized to delete this image"; neither changes anything; otherwise exactly that record leaves the table, its storage id leaves storage, every other record stays, and likes (including rows for the deleted image) are untouched |

## Left out

- The React components are not modelled: `UploadBox` rendering, `App`, the header, the grid and stream views, and the sign-in and sign-out forms. They only compose UI and show toasts.
- The `onDrop` upload pipeline (src/UploadBox.tsx:12-43) is not modelled. It is asynchronous network I/O: fetching an upload URL, a POST, JSON parsing and calling the mutation.
- Pixel content is not modelled. The canvas records which rectangle was drawn, not the pixels, and the encoder's bytes are an oracle parameter.
- `toBlob` falls back to PNG when the requested type is unsupported. The model records only the requested media type.
- Floating-point `Math.round` is replaced by exact round-half-up. The two agree for integer pixel sizes far below 2^40.
- Asynchrony: the promise and the `onload`/`onerror` callbacks become one method. The method's oracle parameters say which exit is taken.
- `getAuthUserId` is not modelled; the caller is a parameter.
- Upload URL generation (`ctx.storage.generateUploadUrl`) is not modelled; the issued URL is a parameter.
- `ctx.storage.getUrl` is not modelled, so the list views carry no `url` field.
- Index mechanics and reactive subscriptions are not modelled.
- Argument validators (`v.id`, `v.string`) become Dafny types.
- The `comments` table (convex/schema.ts:19-25) is not modelled. No handler reads or writes it.
- The `.unique()` error for two matching rows is not modelled. The database invariant rules it out, and `toggleLike`, the only writer of `likes`, keeps that invariant.
- `processAndStoreImage` does not check that the storage id is live, and the model does not either.
- Two records that share a storage id are faithful to the code. Deleting one of them removes the blob for both.

## Findings

| source | as written | input that shows it | evidently intended | confidence | as-written member | corrected member |
|---|---|---|---|---|---|---|
| src/UploadBox.tsx:160-163 | the square side and offsets are computed in downscaled coordinates but passed to `drawImage` as the source rectangle, which reads natural pixel coordinates, so nothing is downscaled and the crop is not centred | a 1600 x 800 image: the source rectangle is (200, 0, 400, 400), an unscaled 400 x 400 piece taken left of centre and from the top half | draw the centred largest square of the natural image, (400, 0, 800, 800), onto the 400 x 400 canvas | high, not executed | `Geometry.DrawSourceRectOffCentre` | `Geometry.CentredSourceRect` |

`UploadBox.ResizeImage` records the rectangle as written, because it models the code. `Geometry.DrawSourceRectCentredWhenUnscaled` and `Geometry.DrawSourceRectOffWhenScaled` show that the two rectangles agree exactly when no side exceeds 800.
