# PymoniK core, modelled in Dafny

PymoniK is a Python layer over the ArmoniK task-scheduling backend. Functions
become remote tasks through a `task` decorator. Arguments travel pickled and
are decoded lazily on the worker. Each task body gets an execution context
that can fetch objects into a shared, token-scoped cache. This project models
the sequential logic of the library helpers and the example clients that show
its task patterns, then proves properties of that model:

- `Utils.dfy` (module `PymonikUtils`), for `pymonik/src/pymonik/utils.py`:
  - endpoint cleaning, and the choice between a TLS and an insecure gRPC channel;
  - `LazyArgs`, a class whose decoded slot is filled on first use;
  - the `task` decorator in its bare and its parameterised forms.
- `Context.dfy` (module `PymonikContext`), for `pymonik/src/pymonik/context.py`:
  - building a worker or a local context;
  - when `retrieve_object` reports success;
  - the cache path `/cache/shared/<token>/<result id>`, built with a model of POSIX `pathlib` parsing and joining.
- `Subtasking.dfy`, for `test_client/subtasking.py`: `add` delegates its completion to a child `add` invocation until `a <= 0`. Resolving a handle follows that chain.
- `VectorAddition.dfy`, for `test_client/adaptive_vector_addition.py`: vectors above the 512-element threshold are split at the midpoint, the halves are added by subtasks, and the results are concatenated.
- `Raytracing.dfy`, for `examples/raytracing/raytracing.py`, covering the integer logic of `__main__` and `render_tile_task`:
  - clamping the task count and cutting the rows into tiles;
  - rendering a tile row by row;
  - collecting the tiles that came back;
  - writing them in place into a flat `W*H` buffer that starts out magenta.
- `Wrappers.dfy`: the `Option` and `Result` types.

The model stands in for everything outside this logic as follows:

- The pickle codec is a pair of functions, and its round-trip property is a hypothesis that lemmas and methods take, never an axiom.
- The backend's `GetResourceData` is a function parameter.
- The colour of a pixel is an opaque function `shade(x, y)`.
- A task whose result cannot be fetched is a member of a `failed` set.

On `retrieve_object`, the model follows `context.py`:

- `context.py`'s `retrieve_object` sends one `GetResourceData` request and compares the returned id with the requested one.
- `test_client/retrieve_object_test.py` calls `retrieve_object` with `check_exists`, `force_retrieve` and `auto_unpickle`, and calls `object_exists_locally` (line 46). This `context.py` provides none of these, so the model does not either.
- Python raises `AttributeError` when `retrieve_object` or `get_object_path` is called on a local context, which has no task handler. The model returns `Err(AttributeError)` in that case.

## Model

| member | source | states |
|---|---|---|
| PymonikUtils.CleanedEndpoint | pymonik/src/pymonik/utils.py:18-22 | the cleaned endpoint, preceded by "http://" exactly when the input starts with it and followed by "/" exactly when what is left after the scheme ends in "/", rebuilds the input (four cases) |
| PymonikUtils.HttpsSchemeKept | pymonik/src/pymonik/utils.py:19-22 | only "http://" is stripped: an "https://" endpoint longer than the scheme keeps its scheme and loses at most one trailing slash ("https://" alone cleans to "https:/") |
| PymonikUtils.OneTrailingSlashRemoved | pymonik/src/pymonik/utils.py:18-22 | for every endpoint, cleaning removes at most one trailing slash: the result followed by at most one "/" is the input minus any "http://" prefix; "http://" alone cleans to "" |
| PymonikUtils.CleanedEndpointExamples | pymonik/src/pymonik/utils.py:18-22 | three examples: "http://host:5001//" cleans to "host:5001/", "http://" to "", and "localhost:5001" is unchanged |
| PymonikUtils.CreateGrpcChannel | pymonik/src/pymonik/utils.py:9-35 | stepwise cleaning yields CleanedEndpoint; the channel is TLS exactly when the certificate authority is truthy, with the "armonik.local" override and the client certificate and key passed through; otherwise insecure |
| PymonikUtils.LazyArgs.constructor | pymonik/src/pymonik/utils.py:39-42 | stores the encoding of the argument and an empty decoded slot |
| PymonikUtils.LazyArgs.GetArgs | pymonik/src/pymonik/utils.py:44-51 | returns the decoding of the stored bytes, which is the original argument under the round-trip hypothesis; decodes only when the slot is None and otherwise returns the cached value without decoding |
| PymonikUtils.LazyArgs.Repr | pymonik/src/pymonik/utils.py:53-54 | "<LazyArgs - Not Loaded>" while the slot is None, otherwise the repr of the loaded value |
| PymonikUtils.LoadTwice | pymonik/src/pymonik/utils.py:39-51 | two get_args calls on a fresh container both give back the constructor's argument; the second call decodes again only when the value is None |
| PymonikUtils.Decorate | pymonik/src/pymonik/utils.py:63-65 | the Task keeps the function and require_context; its name is function_name when truthy, else the function's `__name__` |
| PymonikUtils.TaskDecorator | pymonik/src/pymonik/utils.py:57-72 | without a function it returns the decorator carrying the options, with one it returns the Task that decorator builds |
| PymonikUtils.TaskFormsAgree | pymonik/src/pymonik/utils.py:57-72 | `@task(...)` applied to f and `task(f, ...)` build the same Task |
| PymonikUtils.BareTaskDefaults | pymonik/src/pymonik/utils.py:57-65 | bare `@task` gives require_context false and the function's own name |
| PymonikContext.NewContext | pymonik/src/pymonik/context.py:16-20 | stores the handler and logger, builds the environment from the logger, and is local exactly when there is no handler |
| PymonikContext.FromLocal | pymonik/src/pymonik/context.py:22-28 | a local context with no handler, whose logger is the given one or else "PymonikLocalExecution" |
| PymonikContext.RetrieveObject | pymonik/src/pymonik/context.py:30-35 | fails exactly when the context has no handler; otherwise true exactly when the backend's response to the request (token, id) names the requested id |
| PymonikContext.GetObjectPath | pymonik/src/pymonik/context.py:37-38 | fails exactly when there is no handler; otherwise the cache root joined with the token and then the id |
| PymonikContext.ParseCacheRoot | pymonik/src/pymonik/context.py:38 | `Path("/cache/shared/")` is the absolute path with components cache, shared |
| PymonikContext.ObjectPathOfComponents | pymonik/src/pymonik/context.py:38 | for one-component token and id the path is /cache/shared/token/id |
| PymonikContext.ObjectPathParts | pymonik/src/pymonik/context.py:37-38 | on a worker context whose token and id are each one path component, the parts of the object path are "/", "cache", "shared", token, id |
| PymonikContext.ObjectPathInjective | pymonik/src/pymonik/context.py:37-38 | for any fixed token, distinct one-component ids get distinct paths |
| PymonikContext.AbsoluteIdEscapesCache | pymonik/src/pymonik/context.py:37-38 | an absolute result id replaces the whole cache path (pathlib's join) |
| Subtasking.AddOne | test_client/subtasking.py:3-8 | the result is a + 1 |
| Subtasking.AddTask | test_client/subtasking.py:10-18 | completes with b exactly when a <= 0, otherwise delegates to add(a - 1, b + 1) |
| Subtasking.ResolveAdd | test_client/subtasking.py:15-18 | following the delegations yields a + b when a > 0 and b otherwise |
| Subtasking.ChainShape | test_client/subtasking.py:15-18 | the chain has max(a, 0) + 1 invocations, the k-th is add(a - k, b + k), each delegates to the next, and the last completes with the resolved value |
| Subtasking.AddEightTwo | test_client/subtasking.py:26 | add(8, 2) resolves to 10 through 9 invocations |
| VectorAddition.AggregateResults | test_client/adaptive_vector_addition.py:7-9 | the result is the first partial result followed by the second |
| VectorAddition.SplitHalves | test_client/adaptive_vector_addition.py:27-29 | splitting at the midpoint loses nothing and both halves are shorter |
| VectorAddition.VecAdd | test_client/adaptive_vector_addition.py:11-41 | fails exactly when the lengths differ; otherwise element i of the result is a[i] + b[i] |
| VectorAddition.VecAddIsPointwise | test_client/adaptive_vector_addition.py:11-41 | the split-and-aggregate recursion equals direct pointwise addition |
| VectorAddition.ScriptVectors | test_client/adaptive_vector_addition.py:50-66 | arange(4096) plus 2 * arange(4096) is 3 * arange(4096) |
| Raytracing.ClampTaskCount | examples/raytracing/raytracing.py:239 | the task count is n clamped to 1..H: n when 1 <= n <= H, H when n > H >= 1, 1 when n < 1 or H = 0 |
| Raytracing.RowsPerTask | examples/raytracing/raytracing.py:240 | the least r with r * count >= H, which is at least 1 when H >= 1 |
| Raytracing.PartitionRows | examples/raytracing/raytracing.py:242-251 | the emitted tiles partition [0, H): non-empty, inside the image, back to back, starting at 0 and ending at H; tile k starts at k * rows_per_task and holds at most rows_per_task rows; at most the task count of them |
| Raytracing.EvenTilesPartition | examples/raytracing/raytracing.py:243-251 | tiles of the loop's shape that reach the bottom form a partition |
| Raytracing.PartitionOrdered | examples/raytracing/raytracing.py:243-251 | an earlier tile ends no later than a later tile starts |
| Raytracing.PartitionCoversOnce | examples/raytracing/raytracing.py:243-251 | every row of the image lies in exactly one tile |
| Raytracing.PartitionStartsDistinct | examples/raytracing/raytracing.py:243-251 | the tiles' first rows, which key the collected results, are distinct |
| Raytracing.IndexInTile | examples/raytracing/raytracing.py:243-251 | every buffer index lies in the rows of a tile |
| Raytracing.TilePixelsLength | examples/raytracing/raytracing.py:189-202 | a tile of h rows yields h * W pixels |
| Raytracing.TilePixelsAt | examples/raytracing/raytracing.py:189-202 | pixel off * W + x of a tile is that of column x, row y_start + off (row-major order) |
| Raytracing.RenderedPixel | examples/raytracing/raytracing.py:189-202 | a rendered tile's pixel for buffer index idx is the shade of idx's column and row |
| Raytracing.RenderTileTask | examples/raytracing/raytracing.py:183-202 | returns its first row and the tile's pixels in row-major order |
| Raytracing.RenderTiles | examples/raytracing/raytracing.py:259-271 | one result per tile in task order: None for a failed task, otherwise the tile's first row and its rendered pixels |
| Raytracing.CollectTiles | examples/raytracing/raytracing.py:268-276 | the collected map is that of the results in task order, failed fetches skipped |
| Raytracing.CollectedLookup | examples/raytracing/raytracing.py:268-276 | a tile's first row is collected exactly when its task succeeded, with that task's pixels |
| Raytracing.CollectedAbsent | examples/raytracing/raytracing.py:268-276 | a first row that no tile starts at is never collected |
| Raytracing.WriteTile | examples/raytracing/raytracing.py:284-299 | the buffer gets tile pixel idx - y_start * W at exactly the indices of the tile's rows inside the image that have a pixel, and is unchanged elsewhere; every index it writes is below W * H (by WritesInImage) |
| Raytracing.AssembleImage | examples/raytracing/raytracing.py:277-301 | a fresh W * H buffer whose entry idx is the pixel of the last tile writing idx, else the missing-tile colour |
| Raytracing.PaintedSnoc | examples/raytracing/raytracing.py:280-283 | processing one more tile changes the colour only where that tile writes |
| Raytracing.PaintedUnwritten | examples/raytracing/raytracing.py:277-278 | an index no tile writes keeps the default colour |
| Raytracing.PaintedByLastWriter | examples/raytracing/raytracing.py:280-299 | an index written by tile k and no later tile holds tile k's pixel |
| Raytracing.WritesInsideTile | examples/raytracing/raytracing.py:286-292 | a tile writes only inside its own rows |
| Raytracing.WritesInImage | examples/raytracing/raytracing.py:286-296 | every index a tile writes is inside the W * H buffer, so the bounds check of the assembly loop never fails |
| Raytracing.PartitionWritesDisjoint | examples/raytracing/raytracing.py:243-251 | distinct tiles of a partition never write the same index |
| Raytracing.MissingTileKeepsDefault | examples/raytracing/raytracing.py:277-301 | the rows of a tile whose result is missing keep (255, 0, 255) |
| Raytracing.CompleteTileProvides | examples/raytracing/raytracing.py:284-299 | a tile with full data puts tile_pixels[idx - y_start * W] at every index idx of its rows |
| Raytracing.CompleteTilesFillImage | examples/raytracing/raytracing.py:243-301 | when every tile returns full data, every index holds the pixel, taken from its data, of the tile that covers its row |
| Raytracing.PixelOfRenderedImage | examples/raytracing/raytracing.py:259-301 | after render, collect and assemble, index idx holds shade(idx % W, idx / W), or the default when its tile's task failed |
| Raytracing.RenderImage | examples/raytracing/raytracing.py:237-301 | the whole pipeline: a partition; no image when no tile was generated; otherwise a W * H buffer holding the rendered pixel of every successful tile and the default for failed ones |

## Left out

- Floating-point geometry (`Vec3`, `Ray`, `Sphere.intersect`, `Camera`, `trace_ray_for_pixel_color`, `to_color`): pixel colours are the opaque function `shade`.
- PIL image creation and saving, printing, `os.getenv` for the task count: I/O. The task count, width and height are parameters.
- RowsPerTask: `math.ceil(img_height / num_tasks)` goes through floating-point division; the model uses exact integer ceiling, which agrees for the sizes the script uses but not for integers too large for a double.
- The actual `grpc.insecure_channel` and `create_channel` calls: foreign library calls, only the chosen branch and its arguments are modelled.
- The `GetResourceData` network call: a function parameter; transport errors it could raise are not modelled.
- `RuntimeEnvironment`, `TaskHandler` and `Logger` internals: not part of this model beyond the fields used.
- The cloudpickle wire format: the codec is abstract and its round trip a hypothesis.
- Remote scheduling, `invoke`/`map_invoke`/`wait`, result handles and concurrency: each task is a pure function here; delegation is a chain resolved sequentially.
- The `check_exists`, `force_retrieve` and `auto_unpickle` options and `object_exists_locally`, which test_client/retrieve_object_test.py uses: `context.py` does not define them.
- `pathlib` special cases outside the model: a leading "//" (kept as a distinct root by POSIX pathlib) is parsed as "/".
- VecAdd: numpy's fixed-width integer overflow, multidimensional arrays and the `isinstance` TypeError check are not modelled; vectors are one-dimensional sequences of unbounded integers.
- Raytracing tile rows are naturals, so Python's negative list indexing never arises in the model.
- test_client/estimate_pi.py, materialize_test.py, retrieve_object_test.py, worker_cache.py, lambda_tasks.py, uploading_objects.py and automation.py: callers and tooling outside the modelled core.
