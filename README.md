# BertGCN training script: layout, cache refresh and epoch schedule

This project models the discrete bookkeeping of the BertGCN training script
(`train_bert_gcn.py`). That script trains a BERT encoder and a graph
convolutional network together on a graph of document and word nodes. The
model covers four parts:

- **Node layout.** The node counts come from the split masks. The train,
  validation, word and test index ranges follow from the counts. The token
  rows of the documents are spliced into node order
  `[train + validation documents | zero rows for word nodes | test documents]`.
  The document mask is the OR of the split masks. Node labels are the argmax of
  the summed one-hot label rows. (Modules `Indexing`, `Layout`, `Labels`.)
- **Embedding cache refresh** (`update_feature`). `FeatureCache.Graph` holds the
  per-node cache `cls_feats` as an array, zero-initialised. A refresh selects the
  document rows by the document mask and encodes them in batches of 1024. It
  concatenates the batch outputs and writes them in place at exactly the masked
  rows. The encoder is an opaque function from a token row to a feature vector.
  Between refreshes, each training step's forward pass overwrites the cache rows
  of its batch with fresh encodings.
- **Train accuracy of one training step** (`train_step`). Only the
  train-flagged rows of the batch are scored. The accuracy is the fraction of
  argmax matches, or exactly 1 when the batch holds no train-flagged row.
  (Module `Accuracy`.)
- **Epoch schedule and best-checkpoint rule.** `Schedule.Trainer` holds the
  graph, `best_val_acc` and a trace of events. One refresh happens before
  training. Each epoch then runs its batch steps, then the two end-of-epoch
  handlers in registration order: scheduler step and refresh, then evaluation
  of the three splits and possibly a checkpoint. A checkpoint is written exactly
  when the validation accuracy strictly exceeds the best so far, which starts
  at 0.

Training itself changes the encoder between refreshes. The model takes that
as input: `Run` receives the encoder in force at each refresh, together with
the encoder in force at each training step, each epoch's batches and each
epoch's validation accuracy.

## Model

| member | source | states |
|---|---|---|
| Indexing.Count | train_bert_gcn.py:51 | `mask.sum()` counts the set flags, at most one per row |
| Indexing.Select | train_bert_gcn.py:123 | boolean-mask selection `xs[mask]` has one entry per set flag |
| Indexing.SelectAt | train_bert_gcn.py:123 | a flagged row sits in the selection at its rank among the flagged rows, so selection keeps index order |
| Indexing.SliceBound | train_bert_gcn.py:84 | Python slice bounds: a bound in range is kept, a negative bound counts from the end, a bound past either end is clamped to that end, and the result lies within the length (so `-0` means the start) |
| Indexing.Concat | train_bert_gcn.py:134 | `th.cat(cls_list)` puts the batches' rows in batch order, the first batch first; `ConcatSnoc` shows that appending a batch appends its rows |
| Indexing.Chunks | train_bert_gcn.py:122-125 | a data loader's batches concatenate back to the input; none is empty, none is larger than the batch size, and all but the last are full |
| Indexing.ArangeMembership | train_bert_gcn.py:108 | `arange(lo, hi)` holds exactly the integers in [lo, hi) |
| Indexing.ArangeMultiplicity | train_bert_gcn.py:108-110 | each integer occurs in `arange(lo, hi)` once if it is in range and otherwise not at all |
| Layout.NbWord | train_bert_gcn.py:52 | `nb_word` is the nodes minus the three document counts; `WordCountFromMasks` shows it is the number of unflagged nodes |
| Layout.CountsOf | train_bert_gcn.py:50-51 | `nb_node` is the number of rows and `nb_train`, `nb_val`, `nb_test` the mask sums; `LaidOutMasks` shows the laid-out masks give the counts back |
| Layout.DocMask | train_bert_gcn.py:93 | `doc_mask` has one entry per node, set exactly where some split flag is set; `CountDocMask` counts it |
| Layout.TrainIdx | train_bert_gcn.py:108 | `train_idx` holds nb_train indices; `RangesPartition` places it in the node partition |
| Layout.ValIdx | train_bert_gcn.py:109 | `val_idx` holds nb_val indices; `RangesPartition` places it in the node partition |
| Layout.TestIdx | train_bert_gcn.py:110 | `test_idx` holds nb_test indices when there are at least that many nodes; `RangesPartition` places it in the node partition |
| Layout.DocIdx | train_bert_gcn.py:111 | `doc_idx` has one entry per document; `DocIdxOnce` shows it holds each document node once and nothing else | train_bert_gcn.py:93 | for disjoint split masks, the document mask has as many set entries as the three masks together |
| Layout.WordCountFromMasks | train_bert_gcn.py:50-52 | `nb_word` derived from the mask sums equals the number of nodes that carry no split flag, so it is never negative |
| Layout.RangesPartition | train_bert_gcn.py:108-110 | the train, validation, word and test ranges are pairwise disjoint and cover every node index in [0, nb_node) exactly once, and no index outside it |
| Layout.DocIdxOnce | train_bert_gcn.py:111 | `doc_idx` lists every train, validation and test node exactly once and no word node and no index outside the graph |
| Layout.CountRangeMask | train_bert_gcn.py:51 | a mask set exactly on [lo, hi) sums to hi - lo |
| Layout.LaidOutMasks | train_bert_gcn.py:50-52 | for split masks laid out by the counts, the mask sums give the counts back, the masks are disjoint, and the document mask is set exactly off the word range |
| Layout.Splice | train_bert_gcn.py:84-85 | the intended splice has nb_node rows: the leading documents in order, a zero row on every word node, then the last nb_test documents in order |
| Layout.SpliceAsWritten | train_bert_gcn.py:84-85 | the splice as written, with Python's slice bounds, has one row per document plus one per word node and ends with the last nb_test documents |
| Layout.SpliceAsWrittenAgrees | train_bert_gcn.py:84 | with at least one test document, the splice as written equals the intended splice |
| Layout.SpliceAsWrittenWithoutTest | train_bert_gcn.py:85 | with no test document, the splice as written puts every document after the zero block, so train node 0 gets a zero row instead of its document |
| Labels.ArgMax | train_bert_gcn.py:89-90 | `argmax` returns an index of a largest entry, and the first such index |
| Labels.ArgMaxRows | train_bert_gcn.py:89-90 | `argmax(axis=1)` gives one label per row; `ArgMaxRowsSelect` shows it commutes with masking |
| Labels.AddRows | train_bert_gcn.py:88 | `y_train + y_test + y_val` keeps the shape of its operands; `LabelTrainAgrees` uses that the val and test rows are zero off their splits |
| Labels.NodeLabels | train_bert_gcn.py:88-90 | every node label is a class index below nb_class |
| Labels.ArgMaxOfOneHot | train_bert_gcn.py:89 | the argmax of a one-hot label row is its class |
| Labels.ArgMaxOfZeroRow | train_bert_gcn.py:90 | an all-zero label row, a word node's, gets class 0 |
| Labels.LabelTrainAgrees | train_bert_gcn.py:99-101 | on a node with neither validation nor test flag, `label` equals `label_train`, and both are 0 when the node's train row is zero |
| Accuracy.Gather | train_bert_gcn.py:157-159 | indexing by the batch `x[idx]` gives one entry per batch index; `TrainAccuracy` states the accuracy in terms of the gathered flags and labels |
| Accuracy.AccuracyScore | train_bert_gcn.py:169 | `accuracy_score` lies in [0, 1] |
| Accuracy.SelectMatches | train_bert_gcn.py:157-169 | counting agreements after masking the rows counts exactly the train-flagged agreements, which are at most the flagged rows |
| Accuracy.ArgMaxRowsSelect | train_bert_gcn.py:158-168 | taking the row-wise argmax commutes with masking the rows |
| Accuracy.TrainAccuracy | train_bert_gcn.py:157-171 | the reported train accuracy is 1 when no batch row is train-flagged; otherwise it is the flagged rows whose argmax prediction equals `label_train`, divided by the flagged rows; it always lies in [0, 1] |
| FeatureCache.EncodeInBatches | train_bert_gcn.py:122-134 | encoding in batches of the loader and concatenating `cls_list` gives, row for row, the encoding of each input row on its own; the input must not be empty, as `th.cat` of an empty list fails |
| FeatureCache.Scatter | train_bert_gcn.py:136 | the masked write keeps the cache's length; `ScatterAt` fixes every row of it |
| FeatureCache.ScatterAt | train_bert_gcn.py:136 | the masked write gives the k-th masked row, in index order, the k-th value and leaves every unmasked row as it was |
| FeatureCache.ScatterIdempotent | train_bert_gcn.py:136 | repeating a masked write with the same values changes nothing |
| FeatureCache.WriteMasked | train_bert_gcn.py:136 | the in-place write `cls_feats[doc_mask] = cls_feat` leaves the array equal to the masked write of its old contents |
| FeatureCache.Graph.constructor | train_bert_gcn.py:84-102 | with at least one test document, the graph holds the token rows of the splice as written, which equal the intended splice, the OR of the laid-out split masks, and an nb_node-row cache of zero rows |
| FeatureCache.Graph.Refresh | train_bert_gcn.py:119-137 | after `update_feature` each document row holds the encoding of that node's tokens and each word row is still zero; the new cache is the masked write of the encoded selection over the old one |
| FeatureCache.Graph.WriteRows | train_bert_gcn.py:158 | the training-mode forward pass overwrites each queried cache row with the encoding of its tokens and leaves every other row as it was; querying only document rows keeps the word rows zero |
| Schedule.BestAfter | train_bert_gcn.py:221-238 | `best_val_acc` after a run of epochs, never negative; `BestIsMax` shows it is the maximum of 0 and the accuracies |
| Schedule.CheckpointEpochs | train_bert_gcn.py:221-235 | the epochs that checkpoint, at most one per epoch; `CheckpointIff` characterises them |
| Schedule.BestIsMax | train_bert_gcn.py:221-238 | `best_val_acc` after any epochs is the maximum of 0 and every validation accuracy seen |
| Schedule.CheckpointIff | train_bert_gcn.py:221 | epoch e checkpoints exactly when its accuracy is positive and strictly above every earlier accuracy, so a repeated, lower or zero accuracy never checkpoints |
| Schedule.CheckpointsIncrease | train_bert_gcn.py:221-235 | checkpointed epochs increase, and their accuracies strictly increase |
| Schedule.BestIsLastCheckpoint | train_bert_gcn.py:235 | the best accuracy is that of the last checkpointed epoch, or 0 if no epoch checkpointed |
| Schedule.CheckpointExample | train_bert_gcn.py:238 | validation accuracies 0.70, 0.65, 0.80, 0.80, 0.75 checkpoint after epochs 1 and 3 only, leaving a best of 0.80 |
| Schedule.EpochEvents | train_bert_gcn.py:175-235 | an epoch's events: one step per batch, then the five handler events, then a checkpoint when flagged; `EpochEventAt` orders them |
| Schedule.RunTrace | train_bert_gcn.py:239-240 | a run's events begin with the refresh before training; `RunTraceOrdered`, `RefreshesBefore` and `RunCheckpoints` state the rest |
| Schedule.EpochEventAt | train_bert_gcn.py:178-181 | within an epoch, every batch step comes before the handler events, which follow in registration order |
| Schedule.RunTraceOrdered | train_bert_gcn.py:206-216 | the events of a run come epoch by epoch, and within an epoch the batch steps precede the scheduler step and the refresh, which precede the three evaluations and the checkpoint decision |
| Schedule.RefreshesBefore | train_bert_gcn.py:239-240 | a batch step of epoch e runs after exactly e refreshes, and an evaluation or checkpoint decision of epoch e runs after e + 1; so exactly one refresh precedes the first step, and a run refreshes once more than it has epochs |
| Schedule.EpochCheckpoints | train_bert_gcn.py:221-235 | an epoch's events hold one checkpoint, its own, exactly when the epoch checkpoints |
| Schedule.RunCheckpoints | train_bert_gcn.py:223-235 | a run writes checkpoints after exactly the epochs the best-accuracy rule picks, in order |
| Schedule.EpochBatchesCoverDocs | train_bert_gcn.py:116 | any ordering of `doc_idx` cut into batches holds every document node exactly once and no word node |
| Schedule.Trainer.constructor | train_bert_gcn.py:238 | `best_val_acc` starts at 0, with no events yet |
| Schedule.Trainer.UpdateFeature | train_bert_gcn.py:119-137 | a refresh leaves the cache refreshed with the current encoder and records one refresh |
| Schedule.Trainer.TrainStep | train_bert_gcn.py:149-172 | a training step overwrites the cache rows of its batch with encodings under the step's encoder, leaves every other row, keeps the word rows zero when the batch holds only document nodes, and records one step |
| Schedule.Trainer.ResetGraph | train_bert_gcn.py:178-181 | `reset_graph` steps the scheduler, then refreshes the cache |
| Schedule.Trainer.LogTrainingResults | train_bert_gcn.py:206-235 | after evaluating the three splits, a checkpoint is saved exactly when the validation accuracy beats the best so far, and the best becomes that accuracy; otherwise the best is unchanged |
| Schedule.Trainer.RunEpoch | train_bert_gcn.py:175-235 | one epoch runs its steps in batch order, then the handler events; whatever the steps wrote, the refresh leaves the cache refreshed with the epoch's encoder, and the best accuracy follows the rule |
| Schedule.Trainer.Run | train_bert_gcn.py:238-240 | a whole run produces the ordered event trace, ends with the best accuracy equal to the maximum rule, and leaves the cache refreshed by the last encoder |

## Left out

- The forward pass `model(g, idx)` and the `m`-weighted blend of BERT and GCN predictions live in model.py, which is not part of this model. The training step takes the forward pass's log-probability rows as input. Its write of fresh encodings into the queried cache rows is modelled as `WriteRows`, with the step's encoder as an input.
- Gradients, `backward`, `detach_`, the Adam updates and the NLL loss value (including the NaN of a batch with no train row) are numerical framework behaviour and are not modelled. Their effect on the encoder is an input to the run.
- The learning-rate values of `MultiStepLR` are floating point. The model records only that the scheduler steps once per epoch.
- The ignite evaluator's accuracy and loss metrics are not modelled, nor are the train, validation and test index loaders that feed them. Each epoch's validation accuracy is an input.
- Device moves, `th.cuda.empty_cache` and the `eval()`/`train()` mode flags are runtime plumbing.
- Argument parsing, logging, reading the corpus file and the contents written by `th.save` are I/O. A checkpoint is an event in the trace.
- The tokenizer, `load_corpus`, `normalize_adj` and the DGL graph construction are external. Token rows, split masks and one-hot label matrices are inputs.
- Data loader shuffling is not modelled as randomness. The batches of an epoch are an arbitrary ordering of `doc_idx` cut into batches.
- The script splices `input_ids` and `attention_mask` separately, with the same bounds. The model splices rows that pair the two.
- FeatureCache.Graph.constructor: requires at least one test document. Without one, the splice as written misplaces every document (see Findings), and the model builds no graph for that layout.
- FeatureCache.Graph.constructor: the split masks are built as the ranges laid out by the counts: train documents first, then validation, then test last. The script takes the masks from `load_corpus` and assumes this layout when it builds the index ranges; the model states that assumption rather than checking it.
- FeatureCache.EncodeInBatches: requires at least one row, and `Graph.Valid` requires at least one document node. With none, the script's `th.cat` of an empty `cls_list` fails, where the model would otherwise leave the cache unchanged; the failure is not modelled as an outcome.
- Layout.Splice: requires as many token rows as documents. The script does not check this, and with any other number of rows it would give the test nodes rows that are not their own.

## Findings

| source | as written | input that shows it | evidently intended | confidence | as-written member | corrected member |
|---|---|---|---|---|---|---|
| train_bert_gcn.py:84-85 | the splice cuts the documents with `[:-nb_test]` and `[-nb_test:]` | nb_test = 0 with at least one word node and one train document: `[:-0]` is empty and `[-0:]` is every document, so all documents follow the zero block and node 0 gets a zero token row | the leading `ndoc - nb_test` documents, then the zero rows, then the last nb_test documents, also when nb_test = 0 | not executed | Layout.SpliceAsWrittenWithoutTest | Layout.Splice |
